/**
 * The API's error body: a Problem Details object in the sense of RFC 7807
 * (members `type`, `title`, `status`, `detail`, `instance` of section 3.1,
 * with `type` defaulting to "about:blank" as section 4.2 allows), built by a
 * constructor, six status-specific factories and a translation of database
 * errors, and serialised by `toJSON`.
 */
module ErrorResponse {
  import opened Text

  /** The JavaScript values the members can hold. */
  datatype Value =
    | Undefined
    | Null
    | Bool(b: bool)
    | Num(n: int)
    | Str(s: string)
    | Arr(items: seq<Value>)
    | Obj(fields: map<string, Value>)

  /** JavaScript truthiness (there is no NaN among the modelled numbers). */
  predicate Truthy(v: Value) {
    match v
    case Undefined => false
    case Null => false
    case Bool(b) => b
    case Num(n) => n != 0
    case Str(s) => s != []
    case Arr(_) => true
    case Obj(_) => true
  }

  /**
   * `a || b`: one of its operands, truthy exactly when either operand is,
   * and the first whenever that one is truthy.
   */
  function Or(a: Value, b: Value): (r: Value)
    ensures r == a || r == b
    ensures Truthy(r) <==> Truthy(a) || Truthy(b)
    ensures Truthy(a) ==> r == a
    ensures !Truthy(a) ==> r == b
  {
    if Truthy(a) then a else b
  }

  /** `String(v)`; in an array, null and undefined elements render empty. */
  function ToStr(v: Value): string
    decreases v
  {
    match v
    case Undefined => "undefined"
    case Null => "null"
    case Bool(b) => if b then "true" else "false"
    case Num(n) => if n < 0 then "-" + Decimal(-n) else Decimal(n)
    case Str(s) => s
    case Arr(items) =>
      JoinWithCommas(seq(|items|, i requires 0 <= i < |items| =>
        if items[i].Undefined? || items[i].Null? then "" else ToStr(items[i])))
    case Obj(_) => "[object Object]"
  }

  function JoinWithCommas(parts: seq<string>): string {
    if |parts| <= 1 then (if parts == [] then "" else parts[0])
    else JoinWithCommas(parts[..|parts| - 1]) + "," + parts[|parts| - 1]
  }

  /** The own enumerable properties that `Object.assign` and object spread copy from `v`. */
  function OwnFields(v: Value): map<string, Value> {
    if v.Obj? then v.fields else map[]
  }

  /** A property read on the constructed object: `undefined` when absent. */
  function Get(props: map<string, Value>, key: string): Value {
    if key in props then props[key] else Undefined
  }

  const AboutBlank: string := "about:blank"

  /** The members of section 3.1 of RFC 7807 that `toJSON` emits. */
  const StandardMembers: set<string> := {"type", "title", "status", "detail", "instance"}

  /** The other property names the model writes are not standard members. */
  lemma ExtensionNames()
    ensures "message" !in StandardMembers && "additionalProperties" !in StandardMembers
    ensures "field" !in StandardMembers && "prismaCode" !in StandardMembers && "field" != "prismaCode"
  {
    assert "title"[0] != "field"[0];
  }

  /**
   * The own properties of `new ErrorResponse({ type, title, status, detail,
   * instance, additional })`, an absent argument being `Undefined`: the
   * message `detail || title` set by `Error`, then the standard members with
   * their defaults, then every property of `additional` copied over them.
   */
  function Create(problemType: Value, title: Value, status: Value, detail: Value, instance: Value,
                  additional: map<string, Value>): (r: map<string, Value>)
    ensures r.Keys == StandardMembers + additional.Keys + (if Or(detail, title).Undefined? then {} else {"message"})
    ensures forall k :: k in additional ==> r[k] == additional[k]
    ensures "title" !in additional ==> r["title"] == title
    ensures "detail" !in additional ==> r["detail"] == detail
    ensures "instance" !in additional ==> r["instance"] == instance
  {
    var message := Or(detail, title);
    var error := if message.Undefined? then map[] else map["message" := Str(ToStr(message))];
    var standard := error["type" := if problemType.Undefined? then Str(AboutBlank) else problemType]
                         ["title" := title]
                         ["status" := if status.Undefined? then Num(500) else status]
                         ["detail" := detail]
                         ["instance" := instance];
    standard + additional
  }

  /** The `type = "about:blank"` and `status = 500` defaults, which only an absent argument takes. */
  lemma CreateDefaults(problemType: Value, title: Value, status: Value, detail: Value, instance: Value,
                       additional: map<string, Value>)
    requires "type" !in additional && "status" !in additional
    ensures var r := Create(problemType, title, status, detail, instance, additional);
            && r["type"] == (if problemType.Undefined? then Str("about:blank") else problemType)
            && r["status"] == (if status.Undefined? then Num(500) else status)
  {
  }

  /** The message is `detail` when it is truthy, otherwise `title`; with neither defined, there is none. */
  lemma CreateMessage(problemType: Value, title: Value, status: Value, detail: Value, instance: Value,
                      additional: map<string, Value>)
    requires "message" !in additional
    ensures var r := Create(problemType, title, status, detail, instance, additional);
            && (Truthy(detail) ==> r["message"] == Str(ToStr(detail)))
            && (!Truthy(detail) && !title.Undefined? ==> r["message"] == Str(ToStr(title)))
            && (!Truthy(detail) && title.Undefined? ==> "message" !in r)
  {
  }

  /** The six factories. */
  datatype ErrorKind = BadRequest | Unauthorized | Forbidden | NotFound | Conflict | InternalServerError

  function StatusOf(kind: ErrorKind): (status: int)
    ensures 400 <= status < 600
  {
    match kind
    case BadRequest => 400
    case Unauthorized => 401
    case Forbidden => 403
    case NotFound => 404
    case Conflict => 409
    case InternalServerError => 500
  }

  function TitleOf(kind: ErrorKind): string {
    match kind
    case BadRequest => "Bad Request"
    case Unauthorized => "Unauthorized"
    case Forbidden => "Forbidden"
    case NotFound => "Not Found"
    case Conflict => "Conflict"
    case InternalServerError => "Internal Server Error"
  }

  function Slug(kind: ErrorKind): string {
    match kind
    case BadRequest => "bad-request"
    case Unauthorized => "unauthorized"
    case Forbidden => "forbidden"
    case NotFound => "not-found"
    case Conflict => "conflict"
    case InternalServerError => "internal-server-error"
  }

  const ErrorTypeBase: string := "https://api.example.com/errors/"

  /** `ErrorResponse.badRequest(detail, instance, additional)` and its five siblings. */
  function Factory(kind: ErrorKind, detail: Value, instance: Value, additional: Value): (r: map<string, Value>)
  {
    Create(Str(ErrorTypeBase + Slug(kind)), Str(TitleOf(kind)), Num(StatusOf(kind)), detail, instance, OwnFields(additional))
  }

  /**
   * Each factory fixes type, title and status, unless `additional` overrides
   * them, and different factories give different statuses.
   */
  lemma FactoryFixesMembers(kind: ErrorKind, other: ErrorKind, detail: Value, instance: Value, additional: Value)
    requires forall k :: k in StandardMembers ==> k !in OwnFields(additional)
    ensures var r := Factory(kind, detail, instance, additional);
            && r["type"] == Str("https://api.example.com/errors/" + Slug(kind))
            && r["title"] == Str(TitleOf(kind))
            && r["status"] == Num(StatusOf(kind))
    ensures kind != other ==> StatusOf(kind) != StatusOf(other)
  {
    assert "type" !in OwnFields(additional) && "status" !in OwnFields(additional) && "title" !in OwnFields(additional);
  }

  /** A database error as the driver reports it: its `code` and its `meta`. */
  datatype PrismaError = PrismaError(code: Value, meta: Value)

  /** `meta?.target?.[0]`. */
  function FirstTarget(meta: Value): (r: Value)
    ensures meta.Obj? && "target" in meta.fields && meta.fields["target"].Arr? && meta.fields["target"].items != []
            ==> r == meta.fields["target"].items[0]
    ensures !meta.Obj? ==> r.Undefined?
  {
    var target := if meta.Obj? then Get(meta.fields, "target") else Undefined;
    match target
    case Arr(items) => if items == [] then Undefined else items[0]
    case Str(s) => if s == [] then Undefined else Str([s[0]])
    case Obj(fields) => Get(fields, "0")
    case _ => Undefined
  }

  const DuplicateDetail: string := "A record with this value already exists"
  const DatabaseDetail: string := "Database operation failed"

  /** `ErrorResponse.fromPrismaError(error, instance)`. */
  function FromPrismaError(error: PrismaError, instance: Value): (r: map<string, Value>)
  {
    if error.code == Str("P2002") then
      Factory(Conflict, Str(DuplicateDetail), instance, Obj(map["field" := FirstTarget(error.meta)]))
    else
      Factory(InternalServerError, Str(DatabaseDetail), instance, Obj(map["prismaCode" := error.code]))
  }

  /**
   * A unique-constraint violation ("P2002") is a 409 carrying the first
   * target column as `field`; every other code is a 500 carrying the code as
   * `prismaCode`.
   */
  lemma PrismaErrorMapping(error: PrismaError, instance: Value)
    ensures var r := FromPrismaError(error, instance);
            if error.code == Str("P2002") then
              && r["status"] == Num(409) && r["title"] == Str("Conflict")
              && r["field"] == FirstTarget(error.meta) && "prismaCode" !in r
            else
              && r["status"] == Num(500) && r["title"] == Str("Internal Server Error")
              && r["prismaCode"] == error.code && "field" !in r
  {
    DatabaseStatuses();
    ExtensionNames();
    if error.code == Str("P2002") {
      FactoryFixesMembers(Conflict, Conflict, Str(DuplicateDetail), instance, Obj(map["field" := FirstTarget(error.meta)]));
    } else {
      FactoryFixesMembers(InternalServerError, InternalServerError, Str(DatabaseDetail), instance,
                          Obj(map["prismaCode" := error.code]));
    }
  }

  /**
   * `toJSON()`: the five standard members read off the object, then the
   * properties of `this.additionalProperties`, if that is an object.
   */
  function ToJson(props: map<string, Value>): (r: map<string, Value>)
    ensures StandardMembers <= r.Keys
    ensures forall k :: k in r ==> k in StandardMembers || k in OwnFields(Get(props, "additionalProperties"))
    ensures forall k :: k in StandardMembers && k !in OwnFields(Get(props, "additionalProperties")) ==> r[k] == Get(props, k)
    ensures forall k :: k in OwnFields(Get(props, "additionalProperties")) ==>
              k in r && r[k] == OwnFields(Get(props, "additionalProperties"))[k]
  {
    StandardPart(props) + OwnFields(Or(Get(props, "additionalProperties"), Obj(map[])))
  }

  /** The five standard members as read off the object. */
  function StandardPart(props: map<string, Value>): (r: map<string, Value>)
    ensures r.Keys == StandardMembers
    ensures forall k :: k in r ==> r[k] == Get(props, k)
  {
    map k | k in StandardMembers :: Get(props, k)
  }

  /**
   * Nothing assigns `additionalProperties`, so unless `additional` itself
   * names it, the JSON body holds exactly the five standard members, with
   * the values the constructed object has: the extension members passed in
   * `additional` never reach it.
   */
  lemma JsonHasStandardMembersOnly(problemType: Value, title: Value, status: Value, detail: Value, instance: Value,
                                   additional: map<string, Value>)
    requires "additionalProperties" !in additional
    ensures var props := Create(problemType, title, status, detail, instance, additional);
            var json := ToJson(props);
            && json.Keys == StandardMembers
            && forall k :: k in json ==> json[k] == props[k]
  {
    ExtensionNames();
    var props := Create(problemType, title, status, detail, instance, additional);
    assert Get(props, "additionalProperties") == Undefined;
    assert ToJson(props) == StandardPart(props);
  }

  /** A factory-built body holds exactly the standard members, with the factory's status. */
  lemma FactoryJson(kind: ErrorKind, detail: Value, instance: Value, fields: map<string, Value>)
    requires "additionalProperties" !in fields && forall k :: k in StandardMembers ==> k !in fields
    ensures var json := ToJson(Factory(kind, detail, instance, Obj(fields)));
            json.Keys == StandardMembers && json["status"] == Num(StatusOf(kind))
  {
    FactoryFixesMembers(kind, kind, detail, instance, Obj(fields));
    JsonHasStandardMembersOnly(Str(ErrorTypeBase + Slug(kind)), Str(TitleOf(kind)), Num(StatusOf(kind)),
                               detail, instance, fields);
  }

  /** The two statuses and titles a database error can map to. */
  lemma DatabaseStatuses()
    ensures StatusOf(Conflict) == 409 && StatusOf(InternalServerError) == 500
    ensures TitleOf(Conflict) == "Conflict" && TitleOf(InternalServerError) == "Internal Server Error"
  {
  }

  /** One extension member handed to a factory never reaches the serialised body. */
  lemma ExtensionDropped(kind: ErrorKind, detail: Value, instance: Value, name: string, v: Value)
    requires name !in StandardMembers && name != "additionalProperties"
    ensures var json := ToJson(Factory(kind, detail, instance, Obj(map[name := v])));
            && json.Keys == StandardMembers && name !in json && json["status"] == Num(StatusOf(kind))
  {
    FactoryJson(kind, detail, instance, map[name := v]);
  }

  /** Hence a duplicate-key error's body carries no `field`, and any other database error's no `prismaCode`. */
  lemma PrismaDetailsDropped(error: PrismaError, instance: Value)
    ensures var json := ToJson(FromPrismaError(error, instance));
            && "field" !in json && "prismaCode" !in json
            && json["status"] == (if error.code == Str("P2002") then Num(409) else Num(500))
  {
    DatabaseStatuses();
    ExtensionNames();
    if error.code == Str("P2002") {
      ExtensionDropped(Conflict, Str(DuplicateDetail), instance, "field", FirstTarget(error.meta));
    } else {
      ExtensionDropped(InternalServerError, Str(DatabaseDetail), instance, "prismaCode", error.code);
    }
  }

  /**
   * The serialisation evidently intended: the standard members followed by
   * every enumerable own property, so the extension members that `additional`
   * copied onto the object reach the body. `message` is left out, being
   * non-enumerable on an `Error`.
   */
  function ToJsonWithExtensions(props: map<string, Value>): (r: map<string, Value>)
    ensures r.Keys == StandardMembers + (props.Keys - {"message"})
    ensures forall k :: k in StandardMembers ==> r[k] == Get(props, k)
    ensures forall k :: k in props && k != "message" ==> r[k] == props[k]
  {
    StandardPart(props) + map k | k in props && k != "message" :: props[k]
  }

  /** With that serialisation a duplicate-key body names the column and any other database error's body the code. */
  lemma PrismaDetailsKept(error: PrismaError, instance: Value)
    ensures var json := ToJsonWithExtensions(FromPrismaError(error, instance));
            if error.code == Str("P2002") then
              && "field" in json && json["field"] == FirstTarget(error.meta) && json["status"] == Num(409)
            else
              && "prismaCode" in json && json["prismaCode"] == error.code && json["status"] == Num(500)
  {
    ExtensionNames();
    PrismaErrorMapping(error, instance);
  }
}
