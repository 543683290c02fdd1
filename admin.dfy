/**
 * api/admin.php: the admin script. Its two helpers read and write the same
 * `system_settings` table as models/Settings.php, but store booleans as the
 * texts 'true' and 'false' and turn those texts back into booleans. The
 * script then derives its endpoint from the path and answers per endpoint;
 * the rules of the users, reports and settings endpoints are modelled as
 * functions of their inputs: the path segment `param`, the authenticated
 * user's id, and the decoded request body `data`.
 */
module Admin {
  import opened Optional
  import opened Values
  import PhpStr
  import Jwt
  import Router
  import SiteSettings
  import Reports

  // ---------------------------------------------------------------------------
  // getSystemSettings / saveSystemSettings

  /** A fetched `setting_value`: the text, or null. */
  function Cell(v: Option<string>): Value
  {
    if v.Some? then Str(v.value) else Null
  }

  /** The loop's rewrite: `in_array($v, ['true', 'false'])` becomes filter_var's boolean. */
  function Converted(v: Value): Value
  {
    if v == Str("true") then Bool(true) else if v == Str("false") then Bool(false) else v
  }

  /** The rows the SELECT fetches: all of them, or `WHERE setting_key IN (...)` for a non-empty key list. */
  function Selected(table: SiteSettings.Table, keys: seq<string>): (r: SiteSettings.Table)
    ensures forall k :: k in r <==> k in table && (keys == [] || k in keys)
  {
    if keys == [] then table else map k | k in table && k in keys :: table[k]
  }

  /** getSystemSettings($db, $keys): `[]` when the table is missing, otherwise every fetched value converted. */
  function SystemSettings(table: SiteSettings.Table, present: bool, keys: seq<string>): (r: map<string, Value>)
    ensures !present ==> r == map[]
    ensures present ==> r.Keys == Selected(table, keys).Keys
  {
    if !present then map[]
    else
      var rows := Selected(table, keys);
      map k | k in rows :: Converted(Cell(rows[k]))
  }

  /** The text saveSystemSettings writes: booleans as 'true'/'false', then what set() would write. */
  function SavedForm(v: Value, enc: Value -> string): (r: Option<string>)
    ensures v.Bool? ==> r == Some(if v.b then "true" else "false")
    ensures !v.Bool? ==> r == SiteSettings.SetForm(v, enc)
  {
    if v.Bool? then Some(if v.b then "true" else "false") else SiteSettings.SetForm(v, enc)
  }

  /** The upserts for the given keys of the data. */
  function SavedOn(data: map<string, Value>, keys: set<string>, enc: Value -> string): SiteSettings.Table
  {
    map k | k in keys && k in data :: SavedForm(data[k], enc)
  }

  /** The table after saveSystemSettings($db, $data): one upsert per key. */
  function Saved(table: SiteSettings.Table, data: map<string, Value>, enc: Value -> string): SiteSettings.Table
  {
    table + SavedOn(data, data.Keys, enc)
  }

  /** One more upsert extends the keys done by one. */
  lemma SavedStep(start: SiteSettings.Table, data: map<string, Value>, done: set<string>, k: string, enc: Value -> string)
    requires k in data
    ensures (start + SavedOn(data, done, enc))[k := SavedForm(data[k], enc)] == start + SavedOn(data, done + {k}, enc)
  {
  }

  /** A boolean saved is a boolean read back. */
  lemma BoolRoundTrip(b: bool, enc: Value -> string)
    ensures Converted(Cell(SavedForm(Bool(b), enc))) == Bool(b)
  {
  }

  /**
   * A string is read back as itself, except the texts 'true' and 'false',
   * which come back as booleans; null stays null.
   */
  lemma StringRoundTrip(s: string, enc: Value -> string)
    ensures s != "true" && s != "false" ==> Converted(Cell(SavedForm(Str(s), enc))) == Str(s)
    ensures Converted(Cell(SavedForm(Str("true"), enc))) == Bool(true)
    ensures Converted(Cell(SavedForm(Null, enc))) == Null
  {
  }

  /** After a save, every saved key reads back as its saved text converted, and every other key as before. */
  lemma SaveThenRead(table: SiteSettings.Table, data: map<string, Value>, enc: Value -> string, k: string)
    ensures k in data ==> SystemSettings(Saved(table, data, enc), true, [])[k] == Converted(Cell(SavedForm(data[k], enc)))
    ensures k !in data && k in table ==> SystemSettings(Saved(table, data, enc), true, [])[k] == SystemSettings(table, true, [])[k]
    ensures k in SystemSettings(Saved(table, data, enc), true, []) <==> k in data || k in table
  {
  }

  /** The fetched rows with the keys outside `todo` already converted. */
  function PartlyConverted(rows: SiteSettings.Table, todo: set<string>): map<string, Value>
  {
    map k | k in rows :: if k in todo then Cell(rows[k]) else Converted(Cell(rows[k]))
  }

  /** One turn of the foreach: rewriting a 'true'/'false' entry converts one more key. */
  lemma ConvertStep(rows: SiteSettings.Table, todo: set<string>, k: string)
    requires k in todo && todo <= rows.Keys
    ensures var p := PartlyConverted(rows, todo);
      (if p[k] == Str("true") || p[k] == Str("false") then p[k := Bool(p[k] == Str("true"))] else p)
        == PartlyConverted(rows, todo - {k})
  {
  }

  /** getSystemSettings: the fetch, then the foreach rewriting `$settings[$k]`. */
  method GetSystemSettings(store: SiteSettings.SettingsStore, keys: seq<string>) returns (r: map<string, Value>)
    ensures r == SystemSettings(store.table, store.present, keys)
  {
    if !store.present {
      return map[];
    }
    var rows := Selected(store.table, keys);
    var settings := map k | k in rows :: Cell(rows[k]);
    var todo := rows.Keys;
    assert settings == PartlyConverted(rows, todo);
    while todo != {}
      invariant todo <= rows.Keys
      invariant settings == PartlyConverted(rows, todo)
      decreases |todo|
    {
      var k :| k in todo;
      ConvertStep(rows, todo, k);
      var v := settings[k];
      if v == Str("true") || v == Str("false") {
        settings := settings[k := Bool(v == Str("true"))];
      }
      todo := todo - {k};
    }
    assert PartlyConverted(rows, {}) == SystemSettings(store.table, true, keys);
    r := settings;
  }

  /** saveSystemSettings: creates the table when missing, then upserts key by key. */
  method SaveSystemSettings(store: SiteSettings.SettingsStore, data: map<string, Value>, enc: Value -> string)
    requires store.Valid()
    modifies store
    ensures store.Valid() && store.present
    ensures store.table == Saved(old(store.table), data, enc)
  {
    store.present := true;
    ghost var start := store.table;
    var todo := data.Keys;
    while todo != {}
      invariant store.present && todo <= data.Keys
      invariant store.table == start + SavedOn(data, data.Keys - todo, enc)
      decreases |todo|
    {
      var k :| k in todo;
      var val := data[k];
      var text := if val.Bool? then Some(if val.b then "true" else "false") else SiteSettings.SetForm(val, enc);
      SavedStep(start, data, data.Keys - todo, k, enc);
      assert (data.Keys - todo) + {k} == data.Keys - (todo - {k});
      store.table := store.table[k := text];
      todo := todo - {k};
    }
    assert data.Keys - todo == data.Keys;
  }

  // ---------------------------------------------------------------------------
  // routing: `explode('/', trim($path, '/'))` and the segments after `admin`

  function AdminSegments(path: string): seq<string>
  {
    PhpStr.Split(PhpStr.Trim(path, {'/'}), '/')
  }

  /** array_search($s, $segs): the first index holding s, or false. */
  function IndexOf(segs: seq<string>, s: string): (r: Option<nat>)
    ensures r.None? <==> s !in segs
    ensures r.Some? ==> r.value < |segs| && segs[r.value] == s && s !in segs[..r.value]
  {
    if segs == [] then None
    else if segs[0] == s then Some(0)
    else match IndexOf(segs[1..], s)
      case None => None
      case Some(i) =>
        assert segs[..i + 1] == [segs[0]] + segs[1..][..i];
        Some(i + 1)
  }

  /** The index of `admin`, or failing that of `admin.php`. */
  function AdminIndex(segs: seq<string>): Option<nat>
  {
    match IndexOf(segs, "admin")
    case Some(i) => Some(i)
    case None => IndexOf(segs, "admin.php")
  }

  /** `$segments[$adminIndex + 1] ?? 'dashboard'`, and 'dashboard' without an admin segment. */
  function EndpointOf(segs: seq<string>): string
  {
    match AdminIndex(segs)
    case Some(i) => if i + 1 < |segs| then segs[i + 1] else "dashboard"
    case None => "dashboard"
  }

  /** `$segments[$adminIndex + 2] ?? null`. */
  function ParamOf(segs: seq<string>): Option<string>
  {
    match AdminIndex(segs)
    case Some(i) => if i + 2 < |segs| then Some(segs[i + 2]) else None
    case None => None
  }

  /** The first occurrence wins: after a prefix without s, s is found right after the prefix. */
  lemma {:induction false} FirstIndex(prefix: seq<string>, s: string, tail: seq<string>)
    requires s !in prefix
    ensures IndexOf(prefix + [s] + tail, s) == Some(|prefix|)
  {
    if prefix != [] {
      assert (prefix + [s] + tail)[1..] == prefix[1..] + [s] + tail;
      FirstIndex(prefix[1..], s, tail);
    }
  }

  /** Every segment of `prefix + ["admin", endpoint] + rest` is plain when each part is. */
  lemma PlainParts(prefix: seq<string>, endpoint: string, rest: seq<string>)
    requires forall i :: 0 <= i < |prefix| ==> Router.PlainSegment(prefix[i])
    requires forall i :: 0 <= i < |rest| ==> Router.PlainSegment(rest[i])
    requires Router.PlainSegment(endpoint)
    ensures |prefix + ["admin", endpoint] + rest| >= 1
    ensures forall i :: 0 <= i < |prefix + ["admin", endpoint] + rest| ==> Router.PlainSegment((prefix + ["admin", endpoint] + rest)[i])
  {
    var parts := prefix + ["admin", endpoint] + rest;
    forall i | 0 <= i < |parts|
      ensures Router.PlainSegment(parts[i])
    {
      if i < |prefix| {
        assert parts[i] == prefix[i];
      } else if i >= |prefix| + 2 {
        assert parts[i] == rest[i - |prefix| - 2];
      }
    }
  }

  /** After a prefix without `admin`, the endpoint and the parameter are the two segments after `admin`. */
  lemma AdminRouteOfSegments(prefix: seq<string>, endpoint: string, rest: seq<string>)
    requires "admin" !in prefix
    ensures EndpointOf(prefix + ["admin", endpoint] + rest) == endpoint
    ensures ParamOf(prefix + ["admin", endpoint] + rest) == (if rest == [] then None else Some(rest[0]))
  {
    var parts := prefix + ["admin", endpoint] + rest;
    assert parts == prefix + ["admin"] + ([endpoint] + rest);
    FirstIndex(prefix, "admin", [endpoint] + rest);
    assert parts[|prefix| + 1] == endpoint;
    if rest != [] {
      assert parts[|prefix| + 2] == rest[0];
    }
  }

  /**
   * `/…/admin/<endpoint>/<param>/…`: the endpoint and the parameter are the
   * two segments after the first `admin`; a path ending at `admin/<endpoint>`
   * has no parameter.
   */
  lemma AdminPathRoute(prefix: seq<string>, endpoint: string, rest: seq<string>)
    requires "admin" !in prefix
    requires forall i :: 0 <= i < |prefix| ==> Router.PlainSegment(prefix[i])
    requires forall i :: 0 <= i < |rest| ==> Router.PlainSegment(rest[i])
    requires Router.PlainSegment(endpoint)
    ensures EndpointOf(AdminSegments("/" + PhpStr.Join(prefix + ["admin", endpoint] + rest, '/'))) == endpoint
    ensures ParamOf(AdminSegments("/" + PhpStr.Join(prefix + ["admin", endpoint] + rest, '/'))) == (if rest == [] then None else Some(rest[0]))
  {
    PlainParts(prefix, endpoint, rest);
    Router.JoinedSegments(prefix + ["admin", endpoint] + rest);
    AdminRouteOfSegments(prefix, endpoint, rest);
  }

  /** Without an `admin` or `admin.php` segment the request goes to the dashboard, with no parameter. */
  lemma NoAdminSegment(segs: seq<string>)
    requires "admin" !in segs && "admin.php" !in segs
    ensures EndpointOf(segs) == "dashboard" && ParamOf(segs) == None
  {
  }

  /** `admin.php` counts only when no `admin` segment exists anywhere in the path. */
  lemma AdminPhpFallback(prefix: seq<string>, tail: seq<string>)
    requires "admin" !in prefix + ["admin.php"] + tail && "admin.php" !in prefix
    ensures AdminIndex(prefix + ["admin.php"] + tail) == Some(|prefix|)
  {
    FirstIndex(prefix, "admin.php", tail);
  }

  /** What the switch does with an endpoint. */
  datatype Section =
    | DashboardSection
    | UsersSection
    | PostsSection
    | ReportsSection
    | SettingsSection(defaults: map<string, Value>)
    | NotFound(status: int, message: string)

  /** `(int)` on the few literal strings the guards below meet. */
  lemma IntvalLiterals()
    ensures PhpStr.DecimalString(0) == "0" && PhpStr.DecimalString(1) == "1"
    ensures PhpStr.Intval("1") == 1 && PhpStr.Intval("0") == 0 && PhpStr.Intval("") == 0
    ensures !PhpStr.IsIntegerNumeric("")
  {
    assert PhpStr.DecimalString(0) == "0" && PhpStr.DecimalString(1) == "1";
    PhpStr.IntvalDecimalString(0);
    PhpStr.IntvalDecimalString(1);
    assert PhpStr.LeadingDigits("") == [];
    assert PhpStr.TrimLeft("", PhpStr.NumericSpace) == "";
  }

  // ---------------------------------------------------------------------------
  // the fallback admin check (taken only when JWT::requireAdmin is missing)

  /** `role === 'admin'` or `(int)$authUser['is_admin'] === 1`, both under isset. */
  predicate FallbackIsAdmin(user: Value)
  {
    (IsSet(user, "role") && user.fields["role"] == Str("admin")) ||
    (IsSet(user, "is_admin") && IntCast(user.fields["is_admin"]) == 1)
  }

  /**
   * Every user JWT::requireAdmin admits, the fallback admits too; the
   * fallback is wider, since it casts: `is_admin` "1" passes it but not
   * requireAdmin's strict comparison.
   */
  lemma FallbackWider(user: Value)
    ensures Jwt.IsAdmin(user) ==> FallbackIsAdmin(user)
    ensures FallbackIsAdmin(Obj(map["is_admin" := Str("1")]))
    ensures !Jwt.IsAdmin(Obj(map["is_admin" := Str("1")]))
  {
    StrictAdmitted(user);
    StringOneAdmitted();
  }

  lemma StrictAdmitted(user: Value)
    ensures Jwt.IsAdmin(user) ==> FallbackIsAdmin(user)
  {
  }

  lemma StringOneAdmitted()
    ensures FallbackIsAdmin(Obj(map["is_admin" := Str("1")]))
    ensures !Jwt.IsAdmin(Obj(map["is_admin" := Str("1")]))
  {
    var u := Obj(map["is_admin" := Str("1")]);
    assert IsSet(u, "is_admin") && u.fields["is_admin"] == Str("1");
    IntvalOfOne();
  }

  lemma IntvalOfOne()
    ensures IntCast(Str("1")) == 1
  {
    assert PhpStr.DecimalString(1) == "1";
    PhpStr.IntvalDecimalString(1);
  }

  // ---------------------------------------------------------------------------
  // users: PUT and DELETE

  const IdRequired := "ID gerekli"
  const NoChange := "De\U{11F}i\U{15F}iklik yok"
  const CannotDemoteSelf := "Kendi yetkinizi alamazs\U{131}n\U{131}z"
  const CannotBanSelf := "Kendinizi yasaklayamazs\U{131}n\U{131}z"
  const CannotDeleteSelf := "Kendinizi silemezsiniz"

  /** The reply to PUT users/<param>: an error, or the columns the UPDATE writes. */
  datatype Edit = Refused(status: int, message: string) | Apply(role: Option<string>, banned: Option<int>)

  /** The role written for an `is_admin` value: `(int)$v === 1 ? 'admin' : 'user'`. */
  function RoleFor(v: Value): (r: string)
    ensures r == "admin" <==> IntCast(v) == 1
  {
    if IntCast(v) == 1 then "admin" else "user"
  }

  /** The listing's virtual flag: `$u['role'] === 'admin' ? 1 : 0`. */
  function ListedIsAdmin(role: Value): (r: int)
    ensures r == 1 <==> role == Str("admin")
    ensures r == 0 || r == 1
  {
    if role == Str("admin") then 1 else 0
  }

  /** Writing the listing's flag back (0 or 1) through PUT stores a role the listing shows as the same flag. */
  lemma RoleFlagRoundTrip(v: Value, flag: int)
    requires flag == 0 || flag == 1
    ensures ListedIsAdmin(Str(RoleFor(v))) == (if IntCast(v) == 1 then 1 else 0)
    ensures ListedIsAdmin(Str(RoleFor(Int(flag)))) == flag
    ensures RoleFor(Int(ListedIsAdmin(Str("admin")))) == "admin" && RoleFor(Int(ListedIsAdmin(Str("user")))) == "user"
  {
  }

  /** `(int)$param === (int)$authUser['id']`. */
  predicate IsSelf(param: string, user: Value)
  {
    PhpStr.Intval(param) == IntCast(Field(user, "id"))
  }

  /** The SET list: `role` when `is_admin` is set, `is_banned` when that is; an empty list is 'no change'. */
  function Changes(data: Value): (r: Edit)
    ensures r.Refused? <==> !IsSet(data, "is_admin") && !IsSet(data, "is_banned")
    ensures r.Refused? ==> r == Refused(400, NoChange)
    ensures r.Apply? ==> (r.role.Some? <==> IsSet(data, "is_admin")) && (r.banned.Some? <==> IsSet(data, "is_banned"))
    ensures r.Apply? && r.role.Some? ==> r.role.value == RoleFor(data.fields["is_admin"])
    ensures r.Apply? && r.banned.Some? ==> r.banned.value == IntCast(data.fields["is_banned"])
  {
    var role := if IsSet(data, "is_admin") then Some(RoleFor(data.fields["is_admin"])) else None;
    var banned := if IsSet(data, "is_banned") then Some(IntCast(data.fields["is_banned"])) else None;
    if role.None? && banned.None? then Refused(400, NoChange) else Apply(role, banned)
  }

  /** PUT users/<param> as written: the self-guards compare loosely with 0 and 1. */
  function UserEditAsWritten(param: Option<string>, user: Value, data: Value): (r: Edit)
    ensures param.None? || PhpStr.IsFalsy(param.value) ==> r == Refused(400, IdRequired)
    ensures param.Some? && !PhpStr.IsFalsy(param.value) && !IsSelf(param.value, user) ==> r == Changes(data)
    ensures param.Some? && !PhpStr.IsFalsy(param.value) && IsSelf(param.value, user) ==>
      && (IsSet(data, "is_admin") && LooseEqualsInt(data.fields["is_admin"], 0) ==> r == Refused(400, CannotDemoteSelf))
      && ((!(IsSet(data, "is_admin") && LooseEqualsInt(data.fields["is_admin"], 0))
           && IsSet(data, "is_banned") && LooseEqualsInt(data.fields["is_banned"], 1)) ==> r == Refused(400, CannotBanSelf))
    ensures r.Apply? ==> r == Changes(data)
    ensures r.Apply? && IsSelf(param.value, user) ==>
      (IsSet(data, "is_admin") ==> !LooseEqualsInt(data.fields["is_admin"], 0)) &&
      (IsSet(data, "is_banned") ==> !LooseEqualsInt(data.fields["is_banned"], 1))
  {
    if param.None? || PhpStr.IsFalsy(param.value) then Refused(400, IdRequired)
    else if IsSelf(param.value, user) && IsSet(data, "is_admin") && LooseEqualsInt(data.fields["is_admin"], 0) then
      Refused(400, CannotDemoteSelf)
    else if IsSelf(param.value, user) && IsSet(data, "is_banned") && LooseEqualsInt(data.fields["is_banned"], 1) then
      Refused(400, CannotBanSelf)
    else Changes(data)
  }

  /**
   * The self-guards as intended: refuse any `is_admin` that would not write
   * 'admin' and any `is_banned` that would not write 0, testing the value
   * the UPDATE actually stores.
   */
  function UserEdit(param: Option<string>, user: Value, data: Value): (r: Edit)
    ensures param.None? || PhpStr.IsFalsy(param.value) ==> r == Refused(400, IdRequired)
    ensures param.Some? && !IsSelf(param.value, user) && !PhpStr.IsFalsy(param.value) ==> r == Changes(data)
    ensures r.Apply? && IsSelf(param.value, user) ==> r.role in {None, Some("admin")} && r.banned in {None, Some(0)}
  {
    if param.None? || PhpStr.IsFalsy(param.value) then Refused(400, IdRequired)
    else if IsSelf(param.value, user) && IsSet(data, "is_admin") && RoleFor(data.fields["is_admin"]) != "admin" then
      Refused(400, CannotDemoteSelf)
    else if IsSelf(param.value, user) && IsSet(data, "is_banned") && IntCast(data.fields["is_banned"]) != 0 then
      Refused(400, CannotBanSelf)
    else Changes(data)
  }

  /** The decimal text of a positive id is a truthy parameter naming the user with that id. */
  lemma OwnIdText(id: int)
    requires id >= 1
    ensures !PhpStr.IsFalsy(PhpStr.DecimalString(id))
    ensures IsSelf(PhpStr.DecimalString(id), Obj(map["id" := Int(id)]))
  {
    PhpStr.IntvalDecimalString(id);
    IntvalLiterals();
  }

  /**
   * An admin editing their own account can demote themselves with
   * `is_admin: ""`, which is not `== 0` in PHP 8 but casts to 0.
   */
  lemma SelfDemotionAsWritten(p: string, user: Value)
    requires !PhpStr.IsFalsy(p) && IsSelf(p, user)
    ensures UserEditAsWritten(Some(p), user, Obj(map["is_admin" := Str("")])) == Apply(Some("user"), None)
    ensures UserEdit(Some(p), user, Obj(map["is_admin" := Str("")])) == Refused(400, CannotDemoteSelf)
  {
    var d := Obj(map["is_admin" := Str("")]);
    EmptyFlag();
    assert IsSet(d, "is_admin") && !IsSet(d, "is_banned") && d.fields["is_admin"] == Str("");
    assert Changes(d) == Apply(Some("user"), None);
  }

  /** The empty string is not loosely 0 and casts to 0, so it writes the role 'user'. */
  lemma EmptyFlag()
    ensures !LooseEqualsInt(Str(""), 0) && !LooseEqualsInt(Str(""), 1)
    ensures IntCast(Str("")) == 0 && RoleFor(Str("")) == "user"
  {
    IntvalLiterals();
  }

  /** ... and ban themselves with `is_banned: 2`, which is not `== 1` yet is a non-zero ban flag. */
  lemma SelfBanAsWritten(p: string, user: Value)
    requires !PhpStr.IsFalsy(p) && IsSelf(p, user)
    ensures UserEditAsWritten(Some(p), user, Obj(map["is_banned" := Int(2)])) == Apply(None, Some(2))
    ensures UserEdit(Some(p), user, Obj(map["is_banned" := Int(2)])) == Refused(400, CannotBanSelf)
  {
    var d := Obj(map["is_banned" := Int(2)]);
    assert IsSet(d, "is_banned") && !IsSet(d, "is_admin") && d.fields["is_banned"] == Int(2);
    assert !LooseEqualsInt(Int(2), 1) && IntCast(Int(2)) == 2;
    assert Changes(d) == Apply(None, Some(2));
  }

  /** Loose `== 0` implies a cast other than 1, and loose `== 1` a cast other than 0. */
  lemma LooseFlags(v: Value)
    ensures LooseEqualsInt(v, 0) ==> IntCast(v) != 1
    ensures LooseEqualsInt(v, 1) ==> IntCast(v) != 0
  {
    if v.Str? {
      PhpStr.IntvalDecimalString(0);
      PhpStr.IntvalDecimalString(1);
    }
  }

  /** The corrected guards refuse every request the written ones refuse, with the same reply. */
  lemma UserEditRefusesMore(param: Option<string>, user: Value, data: Value)
    ensures UserEditAsWritten(param, user, data).Refused? ==> UserEdit(param, user, data).Refused?
    ensures UserEdit(param, user, data).Apply? ==> UserEdit(param, user, data) == UserEditAsWritten(param, user, data)
  {
    if IsSet(data, "is_admin") {
      LooseFlags(data.fields["is_admin"]);
    }
    if IsSet(data, "is_banned") {
      LooseFlags(data.fields["is_banned"]);
    }
  }

  /** With flags sent as JSON 0/1 or booleans, the two agree: the correction changes only odd inputs. */
  lemma UserEditAgreesOnFlags(param: Option<string>, user: Value, data: Value)
    requires IsSet(data, "is_admin") ==> data.fields["is_admin"] in {Int(0), Int(1), Bool(false), Bool(true)}
    requires IsSet(data, "is_banned") ==> data.fields["is_banned"] in {Int(0), Int(1), Bool(false), Bool(true)}
    ensures UserEdit(param, user, data) == UserEditAsWritten(param, user, data)
  {
  }

  /** The reply to DELETE users/<param>. */
  datatype Removal = RemovalRefused(status: int, message: string) | Remove(id: string)

  function UserDelete(param: Option<string>, user: Value): (r: Removal)
    ensures r.Remove? <==> param.Some? && !PhpStr.IsFalsy(param.value) && !IsSelf(param.value, user)
    ensures r.Remove? ==> r.id == param.value
    ensures r.RemovalRefused? ==> r.status == 400
  {
    if param.None? || PhpStr.IsFalsy(param.value) then RemovalRefused(400, IdRequired)
    else if IsSelf(param.value, user) then RemovalRefused(400, CannotDeleteSelf)
    else Remove(param.value)
  }

  /** An admin can never delete the account of the token they are using. */
  lemma NoSelfDelete(id: int)
    requires id >= 1
    ensures UserDelete(Some(PhpStr.DecimalString(id)), Obj(map["id" := Int(id)])) == RemovalRefused(400, CannotDeleteSelf)
  {
    OwnIdText(id);
  }

  // ---------------------------------------------------------------------------
  // reports: the GET status filter and PUT

  /**
   * The status the listing filters by, from the query's `status`: `$filter`
   * defaults to 'all', `$status` to 'pending'; a truthy filter other than
   * 'all' replaces the status, and 'all' becomes null.
   */
  function ReportStatus(q: Option<string>): (r: Value)
    ensures q.None? ==> r == Str("pending")
    ensures q == Some("all") ==> r == Null
    ensures q.Some? && q.value != "all" ==> r == Str(q.value)
  {
    var filter := if q.Some? then q.value else "all";
    var status := if q.Some? then q.value else "pending";
    var chosen := if !PhpStr.IsFalsy(filter) && filter != "all" then filter else status;
    if chosen == "all" then Null else Str(chosen)
  }

  /**
   * The listed reports: only pending ones by default, all of them for
   * 'all' or a falsy status ("" or "0"), otherwise those with that status.
   */
  lemma ReportListing(reports: map<int, Reports.Row>, q: Option<string>)
    ensures q.None? ==> Reports.Filtered(reports, ReportStatus(q)) == Reports.Filtered(reports, Str("pending"))
    ensures q.Some? && (q.value == "all" || PhpStr.IsFalsy(q.value)) ==> Reports.Filtered(reports, ReportStatus(q)) == reports.Keys
    ensures q.Some? && q.value != "all" && !PhpStr.IsFalsy(q.value) ==>
      forall id :: id in Reports.Filtered(reports, ReportStatus(q)) <==> id in reports && Lookup(reports[id], "status") == Str(q.value)
  {
  }

  /** The reply to PUT reports/<param>. */
  datatype ReportReply = ReportRefused(status: int, message: string) | ReportChanged(cols: seq<string>) | ReportUnchanged

  const ReportColumns: seq<string> := ["status", "admin_notes"]

  function ReportEdit(param: Option<string>, data: Value): ReportReply
  {
    if param.None? || PhpStr.IsFalsy(param.value) then ReportRefused(400, IdRequired)
    else
      var cols := if data.Obj? then Reports.Present(data.fields, ReportColumns) else [];
      if cols == [] then ReportUnchanged else ReportChanged(cols)
  }

  /**
   * The admin edit writes at most `status` and `admin_notes`, each exactly
   * when set in the body, and never the resolver columns that
   * Report::updateStatus fills; a body setting neither is a success too.
   */
  lemma ReportEditColumns(param: Option<string>, data: Value)
    requires param.Some? && !PhpStr.IsFalsy(param.value)
    ensures ReportEdit(param, data).ReportChanged? ==>
      forall c :: c in ReportEdit(param, data).cols <==> c in ReportColumns && IsSet(data, c)
    ensures ReportEdit(param, data).ReportUnchanged? <==> !IsSet(data, "status") && !IsSet(data, "admin_notes")
    ensures ReportEdit(param, data).ReportChanged? ==> "resolved_by" !in ReportEdit(param, data).cols
  {
    if data.Obj? {
      var cols := Reports.Present(data.fields, ReportColumns);
      assert "status" in ReportColumns && "admin_notes" in ReportColumns;
      if IsSet(data, "status") {
        assert "status" in cols;
      }
      if IsSet(data, "admin_notes") {
        assert "admin_notes" in cols;
      }
      if cols != [] {
        assert cols[0] in cols;
      }
    }
  }

  // ---------------------------------------------------------------------------
  // settings, seo, adsense: GET

  const SiteDefaults: map<string, Value> := map[
    "site_name" := Str("SanatSepet"), "site_description" := Str(""), "site_footer" := Str(""),
    "logo_url" := Str(""), "favicon_url" := Str(""), "primary_color" := Str("#1DA1F2"),
    "maintenance_mode" := Bool(false)]

  const SeoDefaults: map<string, Value> := map[
    "meta_title" := Str(""), "meta_description" := Str(""), "meta_keywords" := Str(""),
    "og_image" := Str(""), "twitter_card" := Str("summary"), "google_analytics_id" := Str(""),
    "google_search_console" := Str(""), "robots_txt" := Str(""), "sitemap_enabled" := Bool(true)]

  const AdsenseDefaults: map<string, Value> := map[
    "adsense_enabled" := Bool(false), "adsense_client_id" := Str(""),
    "ad_slot_feed" := Str(""), "ad_slot_sidebar" := Str(""), "ad_slot_post" := Str(""),
    "ad_frequency" := Int(5)]

  /** The switch: the seven endpoints, and 404 with the endpoint's name for any other. */
  function SectionOf(endpoint: string): (r: Section)
    ensures r.NotFound? <==> endpoint !in {"dashboard", "users", "posts", "reports", "settings", "seo", "adsense"}
    ensures r.NotFound? ==> r == NotFound(404, "Endpoint bulunamad\U{131}: " + endpoint)
  {
    match endpoint
    case "dashboard" => DashboardSection
    case "users" => UsersSection
    case "posts" => PostsSection
    case "reports" => ReportsSection
    case "settings" => SettingsSection(SiteDefaults)
    case "seo" => SettingsSection(SeoDefaults)
    case "adsense" => SettingsSection(AdsenseDefaults)
    case _ => NotFound(404, "Endpoint bulunamad\U{131}: " + endpoint)
  }

  /** `array_intersect_key(array_merge($defaults, $all), $defaults)`. */
  function SettingsView(defaults: map<string, Value>, all: map<string, Value>): (r: map<string, Value>)
    ensures r.Keys == defaults.Keys
    ensures forall k :: k in r && k in all ==> r[k] == all[k]
    ensures forall k :: k in r && k !in all ==> r[k] == defaults[k]
  {
    var merged := defaults + all;
    map k | k in merged && k in defaults :: merged[k]
  }

  /**
   * A settings page after a save: a saved boolean or plain string shows as
   * saved, an unsaved key not in the table shows its default, and keys
   * outside the page's defaults never show.
   */
  lemma SettingsPageAfterSave(defaults: map<string, Value>, table: SiteSettings.Table, data: map<string, Value>,
                              enc: Value -> string, k: string)
    requires k in defaults
    ensures var page := SettingsView(defaults, SystemSettings(Saved(table, data, enc), true, []));
      (k in data && (data[k].Bool? || (data[k].Str? && data[k].s !in {"true", "false"})) ==> page[k] == data[k]) &&
      (k !in data && k !in table ==> page[k] == defaults[k]) &&
      page.Keys == defaults.Keys
  {
    SaveThenRead(table, data, enc, k);
  }

  /**
   * The admin pages and models/Settings.php share only some key names: of
   * the public keys, three; of the SEO keys, four; of the AdSense keys, two
   * (the slots are `ad_slot_*` here and `adsense_slot_*` there).
   */
  lemma SharedPublicKeys()
    ensures forall k :: k in SiteSettings.PublicKeys && k in SiteDefaults <==> k in {"site_name", "site_description", "maintenance_mode"}
  {
  }

  lemma SharedSeoKeys()
    ensures forall k :: k in SiteSettings.SeoKeys && k in SeoDefaults <==> k in {"meta_title", "meta_description", "og_image", "twitter_card"}
  {
  }

  lemma SharedAdsenseKeys()
    ensures forall k :: k in SiteSettings.AdsenseKeys && k in AdsenseDefaults <==> k in {"adsense_enabled", "adsense_client_id"}
  {
  }

  /** A boolean the admin saves reads back through Settings::getByKeys as the text 'true' or 'false', not a boolean. */
  lemma PublicReadOfSavedBool(table: SiteSettings.Table, k: string, b: bool, enc: Value -> string)
    ensures SiteSettings.Pick(Saved(table, map[k := Bool(b)], enc), k) == Str(if b then "true" else "false")
  {
  }
}
