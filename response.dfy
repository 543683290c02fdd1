/**
 * config/response.php: the JSON envelopes of `Response::success`,
 * `Response::error` and `Response::paginated`, and the rule-driven field
 * validator `Request::validate`. Emitting the response (`header`,
 * `http_response_code`, `echo`, `exit`) is not modelled: each envelope is
 * returned as a status and a body.
 */
module Response {
  import opened Optional
  import opened Values
  import PhpStr

  /** An HTTP response: status code and JSON body. */
  datatype Reply = Reply(status: int, body: map<string, Value>)

  // ---------------------------------------------------------------------------
  // envelopes

  /** Response::success($data, $message, $statusCode): `message` and `data` appear only when not null. */
  function Success(data: Value, message: Option<string>, status: int): (r: Reply)
    ensures r.status == status
    ensures "success" in r.body && r.body["success"] == Bool(true)
    ensures "message" in r.body <==> message.Some?
    ensures message.Some? ==> r.body["message"] == Str(message.value)
    ensures "data" in r.body <==> data != Null
    ensures data != Null ==> r.body["data"] == data
    ensures r.body.Keys <= {"success", "message", "data"}
  {
    var base := map["success" := Bool(true)];
    var withMessage := if message.Some? then base["message" := Str(message.value)] else base;
    Reply(status, if data != Null then withMessage["data" := data] else withMessage)
  }

  /** Response::error($message, $statusCode, $errors): always `success` false and `message`; `errors` only when not null. */
  function Error(message: string, status: int, errors: Value): (r: Reply)
    ensures r.status == status
    ensures "success" in r.body && r.body["success"] == Bool(false)
    ensures "message" in r.body && r.body["message"] == Str(message)
    ensures "errors" in r.body <==> errors != Null
    ensures errors != Null ==> r.body["errors"] == errors
    ensures r.body.Keys <= {"success", "message", "errors"}
  {
    var base := map["success" := Bool(false), "message" := Str(message)];
    Reply(status, if errors != Null then base["errors" := errors] else base)
  }

  /** The default status codes: 200 for success, 400 for an error. */
  function SuccessDefault(data: Value, message: Option<string>): Reply { Success(data, message, 200) }
  function ErrorDefault(message: string): Reply { Error(message, 400, Null) }

  /** A success and an error envelope are told apart by their `success` flag. */
  lemma SuccessIsNotError(data: Value, m: Option<string>, s1: int, msg: string, s2: int, errors: Value)
    ensures Success(data, m, s1).body != Error(msg, s2, errors).body
    ensures SuccessDefault(data, m).status == 200 && ErrorDefault(msg).status == 400
  {
    assert Success(data, m, s1).body["success"] != Error(msg, s2, errors).body["success"];
  }

  /** `(int) ceil($total / $perPage)` for a non-zero divisor. */
  function CeilDiv(t: int, p: int): (r: int)
    requires p != 0
    ensures p > 0 ==> (r - 1) * p < t <= r * p
    ensures p < 0 ==> r * p <= t < (r - 1) * p
  {
    if p > 0 then -((-t) / p) else -(t / (-p))
  }

  /**
   * Response::paginated: None where `$total / $perPage` throws
   * DivisionByZeroError (perPage 0). Otherwise the items, and the
   * pagination object: `total_pages` is the least number of pages holding
   * every item, and for a positive page size `has_more` says exactly that
   * the page lies before the last one.
   */
  function Paginated(items: seq<Value>, total: int, page: int, perPage: int): (r: Option<Reply>)
    ensures r.Some? <==> perPage != 0
    ensures r.Some? ==> r.value.status == 200 && r.value.body.Keys == {"success", "data", "pagination"} &&
                        r.value.body["success"] == Bool(true) && r.value.body["data"] == List(items)
    ensures r.Some? ==> r.value.body["pagination"].Obj?
    ensures r.Some? && r.value.body["pagination"].Obj? ==>
      (var p := r.value.body["pagination"].fields;
       && p.Keys == {"total", "page", "per_page", "total_pages", "has_more"}
       && p["total"] == Int(total) && p["page"] == Int(page) && p["per_page"] == Int(perPage)
       && p["total_pages"].Int? && p["has_more"].Bool?
       && (perPage > 0 ==> (p["total_pages"].i - 1) * perPage < total <= p["total_pages"].i * perPage)
       && (perPage > 0 ==> (p["has_more"].b <==> page < p["total_pages"].i)))
  {
    if perPage == 0 then None
    else
      var pages := CeilDiv(total, perPage);
      assert perPage > 0 ==> (page * perPage < total <==> page < pages) by {
        if perPage > 0 {
          HasMoreBeforeLastPage(total, page, perPage);
        }
      }
      Some(Reply(200, map[
        "success" := Bool(true),
        "data" := List(items),
        "pagination" := Obj(map[
          "total" := Int(total),
          "page" := Int(page),
          "per_page" := Int(perPage),
          "total_pages" := Int(pages),
          "has_more" := Bool(page * perPage < total)])]))
  }

  /** With a positive page size, `has_more` holds exactly when the page lies before the last one. */
  lemma HasMoreBeforeLastPage(total: int, page: int, perPage: int)
    requires perPage > 0
    ensures page * perPage < total <==> page < CeilDiv(total, perPage)
  {
    var r := CeilDiv(total, perPage);
    if page < r {
      MulMonotone(page, r - 1, perPage);
    } else {
      MulMonotone(r, page, perPage);
    }
  }

  /** total_pages is the least page count that holds every item: total <= total_pages * perPage. */
  lemma TotalPagesLeast(total: int, perPage: int, n: int)
    requires perPage > 0 && total <= n * perPage
    ensures CeilDiv(total, perPage) <= n
  {
    var r := CeilDiv(total, perPage);
    if r > n {
      MulMonotone(n, r - 1, perPage);
    }
  }

  lemma MulMonotone(a: int, b: int, p: int)
    requires a <= b && p > 0
    ensures a * p <= b * p
  {
    var d := b - a;
    assert b * p == a * p + d * p;
    assert d * p >= 0;
  }

  // ---------------------------------------------------------------------------
  // Request::validate

  /** The errors a rule records. */
  datatype FieldError =
    | Required                  // "<Field> alanı zorunludur"
    | BadEmail                  // "Geçerli bir e-posta adresi giriniz"
    | TooShort(bound: string)   // "<Field> en az <n> karakter olmalıdır"
    | TooLong(bound: string)    // "<Field> en fazla <n> karakter olmalıdır"
    | BadUsername               // "Kullanıcı adı sadece harf, rakam ve alt çizgi içerebilir"

  /** ucfirst($s). */
  function UcFirst(s: string): string
  {
    if s == [] then [] else
      var c := s[0];
      [if 'a' <= c <= 'z' then (c as int - 32) as char else c] + s[1..]
  }

  /** The message stored under `$errors[$field]`. */
  function Message(field: string, e: FieldError): string
  {
    match e
    case Required => UcFirst(field) + " alanı zorunludur"
    case BadEmail => "Geçerli bir e-posta adresi giriniz"
    case TooShort(n) => UcFirst(field) + " en az " + n + " karakter olmalıdır"
    case TooLong(n) => UcFirst(field) + " en fazla " + n + " karakter olmalıdır"
    case BadUsername => "Kullanıcı adı sadece harf, rakam ve alt çizgi içerebilir"
  }

  /** `$value === null || $value === ''`. */
  predicate Blank(v: Value)
  {
    v == Null || v == Str("")
  }

  predicate AllDigits(s: string)
  {
    forall i :: 0 <= i < |s| ==> PhpStr.IsDigit(s[i])
  }

  /** `preg_match('/^<prefix>(\d+)$/', $rule, $m)`: the digits m[1], when the rule has that form. */
  function RuleBound(rule: string, prefix: string): (r: Option<string>)
    ensures r.Some? ==> rule == prefix + r.value && r.value != [] && AllDigits(r.value)
  {
    if PhpStr.StartsWith(rule, prefix) && |rule| > |prefix| && AllDigits(rule[|prefix|..]) then
      assert rule == prefix + rule[|prefix|..];
      Some(rule[|prefix|..])
    else None
  }

  /** Every rule of the form prefix followed by digits is recognised, with those digits. */
  lemma RuleBoundOf(prefix: string, n: string)
    requires n != [] && AllDigits(n)
    ensures RuleBound(prefix + n, prefix) == Some(n)
  {
    var rule := prefix + n;
    assert rule[..|prefix|] == prefix && rule[|prefix|..] == n;
  }

  predicate IsWordChar(c: char)
  {
    'a' <= c <= 'z' || 'A' <= c <= 'Z' || '0' <= c <= '9' || c == '_'
  }

  predicate AllWord(s: string)
  {
    forall i :: 0 <= i < |s| ==> IsWordChar(s[i])
  }

  /** `preg_match('/^[a-zA-Z0-9_]+$/', $s)`: PCRE's `$` also matches before a final newline. */
  predicate UsernameMatch(s: string)
  {
    (s != [] && AllWord(s)) || (|s| >= 2 && s[|s| - 1] == '\n' && AllWord(s[..|s| - 1]))
  }

  /** The outcome of one rule on a non-blank value; Crash where PHP throws a TypeError (mb_strlen or preg_match on an array). */
  datatype RuleOutcome = Pass | Fail(e: FieldError) | Crash

  /** One rule applied to a non-blank value; isEmail stands for filter_var(.., FILTER_VALIDATE_EMAIL). */
  function CheckRule(rule: string, v: Value, isEmail: string -> bool): (r: RuleOutcome)
    ensures rule == "email" ==> (r == Pass <==> !IsArray(v) && isEmail(ToPhpString(v).value))
    ensures RuleBound(rule, "min:").Some? && !IsArray(v) ==>
              (r.Fail? <==> |ToPhpString(v).value| < PhpStr.DigitsValue(RuleBound(rule, "min:").value))
    ensures RuleBound(rule, "max:").Some? && !IsArray(v) ==>
              (r.Fail? <==> |ToPhpString(v).value| > PhpStr.DigitsValue(RuleBound(rule, "max:").value))
    ensures rule == "username" && !IsArray(v) ==> (r.Fail? <==> !UsernameMatch(ToPhpString(v).value))
    ensures r.Crash? <==> IsArray(v) && (rule == "username" || RuleBound(rule, "min:").Some? || RuleBound(rule, "max:").Some?)
    ensures r.Fail? && rule == "username" ==> r.e == BadUsername
  {
    var min := RuleBound(rule, "min:");
    var max := RuleBound(rule, "max:");
    assert !(min.Some? && max.Some?);
    assert rule == "email" ==> min.None? && max.None?;
    assert rule == "username" ==> min.None? && max.None?;
    if rule == "email" then
      if !IsArray(v) && isEmail(ToPhpString(v).value) then Pass else Fail(BadEmail)
    else if min.Some? then
      if IsArray(v) then Crash
      else if |ToPhpString(v).value| < PhpStr.DigitsValue(min.value) then Fail(TooShort(min.value)) else Pass
    else if max.Some? then
      if IsArray(v) then Crash
      else if |ToPhpString(v).value| > PhpStr.DigitsValue(max.value) then Fail(TooLong(max.value)) else Pass
    else if rule == "username" then
      if IsArray(v) then Crash
      else if UsernameMatch(ToPhpString(v).value) then Pass else Fail(BadUsername)
    else Pass
  }

  /** The result of one field's rules: its error (None for none), or Fatal for a TypeError. */
  datatype FieldOutcome = Done(error: Option<FieldError>) | Fatal

  /**
   * The inner loop of Request::validate over one field's rules, left to
   * right, from the error cur already recorded for the field: a `required`
   * rule on a blank value records Required and breaks, any other rule on a
   * blank value is skipped, and a failing rule overwrites the error.
   */
  function FieldRules(rules: seq<string>, v: Value, cur: Option<FieldError>, isEmail: string -> bool): FieldOutcome
    decreases |rules|
  {
    if rules == [] then Done(cur)
    else if rules[0] == "required" && Blank(v) then Done(Some(Required))
    else if Blank(v) then FieldRules(rules[1..], v, cur, isEmail)
    else match CheckRule(rules[0], v, isEmail)
      case Crash => Fatal
      case Fail(e) => FieldRules(rules[1..], v, Some(e), isEmail)
      case Pass => FieldRules(rules[1..], v, cur, isEmail)
  }

  /** A blank value fails exactly when the field is required, and then with Required alone. */
  lemma {:induction false} BlankValue(rules: seq<string>, v: Value, isEmail: string -> bool)
    requires Blank(v)
    ensures FieldRules(rules, v, None, isEmail) == Done(if "required" in rules then Some(Required) else None)
    decreases |rules|
  {
    if rules != [] && rules[0] != "required" {
      BlankValue(rules[1..], v, isEmail);
      assert "required" in rules <==> "required" in rules[1..];
    }
  }

  /** On a non-blank value a later failing rule overwrites the error of the earlier ones. */
  lemma {:induction false} LastFailureWins(rules: seq<string>, r: string, v: Value, cur: Option<FieldError>,
                                          isEmail: string -> bool)
    requires !Blank(v)
    ensures FieldRules(rules + [r], v, cur, isEmail) ==
      match FieldRules(rules, v, cur, isEmail)
      case Fatal => Fatal
      case Done(e) =>
        match CheckRule(r, v, isEmail)
        case Crash => Fatal
        case Fail(x) => Done(Some(x))
        case Pass => Done(e)
    decreases |rules|
  {
    if rules == [] {
      assert [] + [r] == [r];
    } else {
      assert (rules + [r])[1..] == rules[1..] + [r];
      match CheckRule(rules[0], v, isEmail)
      case Crash =>
      case Fail(e) => LastFailureWins(rules[1..], r, v, Some(e), isEmail);
      case Pass => LastFailureWins(rules[1..], r, v, cur, isEmail);
    }
  }

  /** Without a recorded error, a non-blank value passes exactly when every rule passes. */
  lemma {:induction false} NonBlankPasses(rules: seq<string>, v: Value, isEmail: string -> bool)
    requires !Blank(v)
    ensures FieldRules(rules, v, None, isEmail) == Done(None) <==>
              forall i :: 0 <= i < |rules| ==> CheckRule(rules[i], v, isEmail) == Pass
    decreases |rules|
  {
    if rules != [] {
      NonBlankPasses(rules[1..], v, isEmail);
      assert forall i :: 1 <= i < |rules| ==> rules[i] == rules[1..][i - 1];
      match CheckRule(rules[0], v, isEmail)
      case Crash =>
      case Fail(e) => NeverCleared(rules[1..], v, e, isEmail);
      case Pass =>
    }
  }

  /** Once recorded, a field's error is never cleared by later rules. */
  lemma {:induction false} NeverCleared(rules: seq<string>, v: Value, e: FieldError, isEmail: string -> bool)
    ensures FieldRules(rules, v, Some(e), isEmail) != Done(None)
    decreases |rules|
  {
    if rules != [] && !(rules[0] == "required" && Blank(v)) {
      if Blank(v) {
        NeverCleared(rules[1..], v, e, isEmail);
      } else {
        match CheckRule(rules[0], v, isEmail)
        case Crash =>
        case Fail(x) => NeverCleared(rules[1..], v, x, isEmail);
        case Pass => NeverCleared(rules[1..], v, e, isEmail);
      }
    }
  }

  /** The error recorded so far for field, as the outer loop sees it. */
  function Recorded(errs: map<string, FieldError>, field: string): Option<FieldError>
  {
    if field in errs then Some(errs[field]) else None
  }

  /** The outer loop of Request::validate over (field, ruleString) pairs: the errors map, or None after a TypeError. */
  function Fields(rules: seq<(string, string)>, body: map<string, Value>, isEmail: string -> bool)
    : Option<map<string, FieldError>>
  {
    if rules == [] then Some(map[])
    else
      match Fields(rules[..|rules| - 1], body, isEmail)
      case None => None
      case Some(errs) =>
        var (field, ruleString) := rules[|rules| - 1];
        Record(errs, field, FieldRules(PhpStr.Split(ruleString, '|'), Lookup(body, field), Recorded(errs, field), isEmail))
  }

  /** The errors after one field: none at all after a TypeError, else the field's error, if any, recorded. */
  function Record(errs: map<string, FieldError>, field: string, outcome: FieldOutcome): Option<map<string, FieldError>>
  {
    match outcome
    case Fatal => None
    case Done(e) => Some(if e.Some? then errs[field := e.value] else errs)
  }

  /** The outcome of Request::validate: it returns, it stops with a 422 error envelope, or it dies with a TypeError. */
  datatype Validation = Passed | Rejected(reply: Reply) | Crashed

  function Messages(errs: map<string, FieldError>): map<string, Value>
  {
    map k | k in errs :: Str(Message(k, errs[k]))
  }

  /** Request::validate($rules) against the request body. */
  function Validated(rules: seq<(string, string)>, body: map<string, Value>, isEmail: string -> bool): (r: Validation)
    ensures r.Crashed? <==> Fields(rules, body, isEmail).None?
    ensures r.Passed? <==> Fields(rules, body, isEmail) == Some(map[])
    ensures r.Rejected? ==>
      var errs := Fields(rules, body, isEmail).value;
      && r.reply.status == 422
      && r.reply.body.Keys == {"success", "message", "errors"}
      && r.reply.body["message"] == Str("Doğrulama hatası")
      && r.reply.body["errors"] == Obj(Messages(errs))
      && r.reply.body["errors"].fields.Keys == errs.Keys
  {
    match Fields(rules, body, isEmail)
    case None => Crashed
    case Some(errs) => Verdict(errs)
  }

  /** The reply once every field is checked: passed with no errors, else 422 with one message per field. */
  function Verdict(errs: map<string, FieldError>): (r: Validation)
    ensures !r.Crashed?
    ensures r.Passed? <==> |errs| == 0
    ensures r.Rejected? ==>
      && r.reply.status == 422
      && r.reply.body.Keys == {"success", "message", "errors"}
      && r.reply.body["success"] == Bool(false)
      && r.reply.body["message"] == Str("Doğrulama hatası")
      && r.reply.body["errors"].Obj?
      && r.reply.body["errors"].fields.Keys == errs.Keys
      && (forall k :: k in errs ==> r.reply.body["errors"].fields[k] == Str(Message(k, errs[k])))
  {
    if |errs| == 0 then Passed else Rejected(Error("Doğrulama hatası", 422, Obj(Messages(errs))))
  }

  /** The inner foreach of Request::validate: one field's rules, with its `break` and `continue`. */
  method CheckField(rulesArray: seq<string>, value: Value, recorded: Option<FieldError>, isEmail: string -> bool)
    returns (out: FieldOutcome)
    ensures out == FieldRules(rulesArray, value, recorded, isEmail)
  {
    var cur := recorded;
    var j := 0;
    while j < |rulesArray|
      invariant 0 <= j <= |rulesArray|
      invariant FieldRules(rulesArray[j..], value, cur, isEmail) == FieldRules(rulesArray, value, recorded, isEmail)
    {
      var rule := rulesArray[j];
      assert rulesArray[j..][1..] == rulesArray[j + 1..];
      if rule == "required" && Blank(value) {
        return Done(Some(Required));
      }
      if Blank(value) {
        j := j + 1;
        continue;
      }
      var outcome := CheckRule(rule, value, isEmail);
      if outcome.Crash? {
        return Fatal;
      }
      if outcome.Fail? {
        cur := Some(outcome.e);
      }
      j := j + 1;
    }
    return Done(cur);
  }

  /** One more trip round the outer loop. */
  lemma FieldsNext(rules: seq<(string, string)>, i: nat, body: map<string, Value>, isEmail: string -> bool,
                   errs: map<string, FieldError>)
    requires i < |rules| && Fields(rules[..i], body, isEmail) == Some(errs)
    ensures Fields(rules[..i + 1], body, isEmail) ==
      Record(errs, rules[i].0, FieldRules(PhpStr.Split(rules[i].1, '|'), Lookup(body, rules[i].0), Recorded(errs, rules[i].0), isEmail))
  {
    assert rules[..i + 1][..i] == rules[..i];
  }

  /** A TypeError in one field ends validation: no later field is looked at. */
  lemma {:induction false} CrashIsFinal(rules: seq<(string, string)>, k: nat, body: map<string, Value>,
                                       isEmail: string -> bool)
    requires k <= |rules| && Fields(rules[..k], body, isEmail).None?
    ensures Fields(rules, body, isEmail).None?
    decreases |rules|
  {
    if k < |rules| {
      var pre := rules[..|rules| - 1];
      assert pre[..k] == rules[..k];
      CrashIsFinal(pre, k, body, isEmail);
    } else {
      assert rules[..k] == rules;
    }
  }

  /** Request::validate, the outer foreach over the fields. */
  method Validate(rules: seq<(string, string)>, body: map<string, Value>, isEmail: string -> bool)
    returns (r: Validation)
    ensures r == Validated(rules, body, isEmail)
  {
    var errors: map<string, FieldError> := map[];
    var i := 0;
    while i < |rules|
      invariant 0 <= i <= |rules|
      invariant Fields(rules[..i], body, isEmail) == Some(errors)
    {
      var (field, ruleString) := rules[i];
      var outcome := CheckField(PhpStr.Split(ruleString, '|'), Lookup(body, field), Recorded(errors, field), isEmail);
      FieldsNext(rules, i, body, isEmail, errors);
      if outcome.Fatal? {
        CrashIsFinal(rules, i + 1, body, isEmail);
        return Crashed;
      }
      if outcome.error.Some? {
        errors := errors[field := outcome.error.value];
      }
      assert Fields(rules[..i + 1], body, isEmail) == Some(errors);
      i := i + 1;
    }
    assert rules[..i] == rules;
    r := Verdict(errors);
  }

  predicate DistinctFields(rules: seq<(string, string)>)
  {
    forall i, j :: 0 <= i < j < |rules| ==> rules[i].0 != rules[j].0
  }

  /**
   * With distinct field names (a PHP array has unique keys) each field is
   * judged on its own: a field carries an error exactly when its own rules
   * record one, so validate rejects exactly when some field has an error.
   */
  lemma {:induction false} FieldsIndependent(rules: seq<(string, string)>, body: map<string, Value>,
                                            isEmail: string -> bool)
    requires DistinctFields(rules)
    requires Fields(rules, body, isEmail).Some?
    ensures var errs := Fields(rules, body, isEmail).value;
      && (forall k :: k in errs ==> exists i :: 0 <= i < |rules| && rules[i].0 == k)
      && (forall i :: 0 <= i < |rules| ==>
            FieldRules(PhpStr.Split(rules[i].1, '|'), Lookup(body, rules[i].0), None, isEmail) ==
            Done(Recorded(errs, rules[i].0)))
  {
    if rules != [] {
      var pre := rules[..|rules| - 1];
      assert DistinctFields(pre);
      FieldsIndependent(pre, body, isEmail);
      var errs0 := Fields(pre, body, isEmail).value;
      var (field, ruleString) := rules[|rules| - 1];
      assert forall i :: 0 <= i < |pre| ==> pre[i] == rules[i];
      assert field !in errs0;
      var outcome := FieldRules(PhpStr.Split(ruleString, '|'), Lookup(body, field), None, isEmail);
      assert Fields(rules, body, isEmail) == Record(errs0, field, outcome);
      LastFieldRecorded(pre, errs0, field, outcome, Fields(rules, body, isEmail).value);
    }
  }

  /** Recording a field no earlier rule names changes the record of that field alone. */
  lemma LastFieldRecorded(pre: seq<(string, string)>, errs0: map<string, FieldError>, field: string,
                          outcome: FieldOutcome, errs: map<string, FieldError>)
    requires forall i :: 0 <= i < |pre| ==> pre[i].0 != field
    requires field !in errs0 && Record(errs0, field, outcome) == Some(errs)
    ensures Done(Recorded(errs, field)) == outcome
    ensures forall i :: 0 <= i < |pre| ==> Recorded(errs, pre[i].0) == Recorded(errs0, pre[i].0)
    ensures forall k :: k in errs ==> k in errs0 || k == field
  {
  }
}
