/**
 * The helper mixed into every REST controller: service getters, DTO and form
 * type resolution per controller method, HTTP method validation, and the
 * translation of exceptions into HTTP exceptions, with the clean-up of the
 * entity the failed request worked on.
 */
module RestMethodHelper {
  import opened Wrappers

  const HttpBadRequest: int := 400
  const HttpNotFound: int := 404
  const HttpMethodNotAllowed: int := 405
  const HttpInternalServerError: int := 500

  const RestDtoInterface: string := "App\\DTO\\RestDtoInterface"
  const ControllerInterface: string := "App\\Rest\\ControllerInterface"

  /** The exceptions the helper throws, receives or returns. */
  datatype Throwable =
    | Http(status: int, message: string, code: int, previous: Option<Throwable>)  // HttpException
    | MethodNotAllowed(allow: seq<string>)                                        // MethodNotAllowedHttpException, an HttpException
    | NoResult(message: string, code: int)                                        // Doctrine NoResultException
    | NonUnique(message: string, code: int)                                       // Doctrine NonUniqueResultException
    | UnexpectedValue(message: string, code: int)
    | Logic(message: string, code: int)
    | Other(message: string, code: int)                                           // any other Throwable
  {
    /** `$exception instanceof HttpException` */
    predicate IsHttp() {
      Http? || MethodNotAllowed?
    }

    /** getMessage() */
    function Message(): string {
      match this
      case MethodNotAllowed(_) => ""
      case Http(_, m, _, _) => m
      case NoResult(m, _) => m
      case NonUnique(m, _) => m
      case UnexpectedValue(m, _) => m
      case Logic(m, _) => m
      case Other(m, _) => m
    }

    /** getCode() */
    function Code(): int {
      match this
      case MethodNotAllowed(_) => 0
      case Http(_, _, c, _) => c
      case NoResult(_, c) => c
      case NonUnique(_, c) => c
      case UnexpectedValue(_, c) => c
      case Logic(_, c) => c
      case Other(_, c) => c
    }
  }

  /** The entity manager behind the resource's repository. */
  class EntityManager {
    /** Ids of the entities the unit of work holds in state MANAGED. */
    var managed: set<string>
    /** Ids for which the repository's find() returns an entity. */
    var found: set<string>

    constructor (found0: set<string>, managed0: set<string>)
      ensures found == found0 && managed == managed0
    {
      found := found0;
      managed := managed0;
    }
  }

  datatype Resource = Resource(dtoClass: string, formTypeClass: string, entityManager: EntityManager)

  datatype ResponseHandler = ResponseHandler(serviceId: string)

  /**
   * The controller the helper is mixed into: its class name, whether it
   * implements ControllerInterface, the per-method DTO and form type tables,
   * and two services that may be unset.
   */
  datatype Controller = Controller(
    className: string,
    isController: bool,
    dtoClasses: map<string, string>,
    formTypes: map<string, string>,
    resource: Option<Resource>,
    responseHandler: Option<ResponseHandler>)

  const ResourceNotSet: Throwable := UnexpectedValue("Resource service not set", 500)
  const ResponseHandlerNotSet: Throwable := UnexpectedValue("ResponseHandler service not set", 500)

  function NotDtoMessage(dtoClass: string): string {
    "Given DTO class '" + dtoClass + "' is not implementing '" + RestDtoInterface + "' interface."
  }

  function NotControllerMessage(className: string): string {
    "You cannot use '" + className + "' controller class with REST traits if that does not implement '"
      + ControllerInterface + "'"
  }

  // ---------------------------------------------------------------------------
  // Service getters

  /** getResource */
  function GetResource(c: Controller): (r: Result<Resource, Throwable>)
    ensures r.Ok? <==> c.resource.Some?
    ensures r.Ok? ==> r.value == c.resource.value
    ensures r.Err? ==> r.error == ResourceNotSet && r.error.Code() == HttpInternalServerError
  {
    match c.resource
    case Some(res) => Ok(res)
    case None => Err(ResourceNotSet)
  }

  /** getResponseHandler */
  function GetResponseHandler(c: Controller): (r: Result<ResponseHandler, Throwable>)
    ensures r.Ok? <==> c.responseHandler.Some?
    ensures r.Ok? ==> r.value == c.responseHandler.value
    ensures r.Err? ==> r.error == ResponseHandlerNotSet && r.error.Code() == HttpInternalServerError
  {
    match c.responseHandler
    case Some(h) => Ok(h)
    case None => Err(ResponseHandlerNotSet)
  }

  // ---------------------------------------------------------------------------
  // DTO class resolution

  /**
   * getDtoClass: the table entry for the method (null looks up ''), else the
   * resource's DTO class; either must implement RestDtoInterface, given here as
   * the set of class names that do.
   */
  function GetDtoClass(c: Controller, methodName: Option<string>, restDtos: set<string>): (r: Result<string, Throwable>)
    ensures r.Ok? ==> r.value in restDtos
    ensures var key := methodName.GetOr("");
      key in c.dtoClasses ==>
        r == if c.dtoClasses[key] in restDtos then Ok(c.dtoClasses[key])
             else Err(UnexpectedValue(NotDtoMessage(c.dtoClasses[key]), 0))
    ensures var key := methodName.GetOr("");
      key !in c.dtoClasses && c.resource.None? ==> r == Err(ResourceNotSet)
    ensures var key := methodName.GetOr("");
      key !in c.dtoClasses && c.resource.Some? ==>
        r == if c.resource.value.dtoClass in restDtos then Ok(c.resource.value.dtoClass)
             else Err(UnexpectedValue(NotDtoMessage(c.resource.value.dtoClass), 0))
  {
    var key := methodName.GetOr("");
    var resolved :=
      if key in c.dtoClasses then Ok(c.dtoClasses[key])
      else match GetResource(c)
        case Ok(res) => Ok(res.dtoClass)
        case Err(e) => Err(e);
    match resolved
    case Err(e) => Err(e)
    case Ok(dtoClass) =>
      if dtoClass !in restDtos then Err(UnexpectedValue(NotDtoMessage(dtoClass), 0))
      else Ok(dtoClass)
  }

  // ---------------------------------------------------------------------------
  // Form type resolution

  /** A '::' starts at position i of s. */
  predicate SeparatorAt(s: string, i: int) {
    0 <= i && i + 1 < |s| && s[i] == ':' && s[i + 1] == ':'
  }

  predicate HasSeparator(s: string) {
    exists j :: 0 <= j < |s| && SeparatorAt(s, j)
  }

  /** The last position below n at which a '::' starts, if there is one. */
  function LastSeparatorBelow(s: string, n: nat): (r: Option<nat>)
    requires n <= |s|
    ensures r.Some? ==> r.value < n && SeparatorAt(s, r.value) &&
                        forall j :: r.value < j < n ==> !SeparatorAt(s, j)
    ensures r.None? ==> forall j :: 0 <= j < n ==> !SeparatorAt(s, j)
    decreases n
  {
    if n == 0 then None
    else if SeparatorAt(s, n - 1) then Some(n - 1)
    else LastSeparatorBelow(s, n - 1)
  }

  /** mb_strrpos(s, '::'), with None for PHP's false */
  function LastSeparator(s: string): Option<nat> {
    LastSeparatorBelow(s, |s|)
  }

  /**
   * The key getFormTypeClass looks up: null is '', and everything up to the
   * last '::' is cut off, but only when that '::' is not at position 0, since
   * the position 0 is falsy.
   */
  function FormTypeKey(methodName: Option<string>): (key: string)
    ensures var m := methodName.GetOr("");
      && |key| <= |m| && key == m[|m| - |key|..]
      && (!HasSeparator(m) ==> key == m)
      && (key != m ==> 0 < |m| - |key| - 2 && SeparatorAt(m, |m| - |key| - 2) && !HasSeparator(key))
      && (LastSeparator(m).Some? && LastSeparator(m).value > 0 ==> key == m[LastSeparator(m).value + 2..])
      && (LastSeparator(m).None? || LastSeparator(m) == Some(0) ==> key == m)
  {
    var m := methodName.GetOr("");
    match LastSeparator(m)
    case Some(p) =>
      if p != 0 then
        SuffixAfterLastHasNoSeparator(m, p);
        m[p + 2..]
      else m
    case None => m
  }

  /** The text after the last '::' holds no '::'. */
  lemma SuffixAfterLastHasNoSeparator(m: string, p: nat)
    requires LastSeparator(m) == Some(p)
    ensures p + 2 <= |m| && !HasSeparator(m[p + 2..])
  {
    var key := m[p + 2..];
    forall j | 0 <= j && j + 1 < |key| ensures !SeparatorAt(key, j) {
      assert key[j] == m[p + 2 + j] && key[j + 1] == m[p + 3 + j];
      assert !SeparatorAt(m, p + 2 + j);
    }
  }

  /** getFormTypeClass: the table entry for the key, else the resource's form type. */
  function GetFormTypeClass(c: Controller, methodName: Option<string>): (r: Result<string, Throwable>)
    ensures FormTypeKey(methodName) in c.formTypes ==> r == Ok(c.formTypes[FormTypeKey(methodName)])
    ensures FormTypeKey(methodName) !in c.formTypes ==>
              r == if c.resource.Some? then Ok(c.resource.value.formTypeClass) else Err(ResourceNotSet)
  {
    var key := FormTypeKey(methodName);
    if key in c.formTypes then Ok(c.formTypes[key])
    else match GetResource(c)
      case Ok(res) => Ok(res.formTypeClass)
      case Err(e) => Err(e)
  }

  // ---------------------------------------------------------------------------
  // Method validation

  /** validateRestMethod: the host check comes first, then an exact (case-sensitive) allow-list test. */
  function ValidateRestMethod(c: Controller, requestMethod: string, allowed: seq<string>): (r: Outcome<Throwable>)
    ensures !c.isController ==> r == Fail(Logic(NotControllerMessage(c.className), 0))
    ensures c.isController ==> (r.Pass? <==> requestMethod in allowed)
    ensures c.isController && r.Fail? ==> r.error == MethodNotAllowed(allowed)
  {
    if !c.isController then Fail(Logic(NotControllerMessage(c.className), 0))
    else if requestMethod !in allowed then Fail(MethodNotAllowed(allowed))
    else Pass
  }

  // ---------------------------------------------------------------------------
  // Exception handling

  /** getExceptionCode */
  function GetExceptionCode(e: Throwable): (code: int)
    ensures code != 0
    ensures e.Code() != 0 ==> code == e.Code()
    ensures e.Code() == 0 ==> code == HttpBadRequest
  {
    if e.Code() != 0 then e.Code() else HttpBadRequest
  }

  /** The status of an HTTP exception. */
  function Status(e: Throwable): int
    requires e.IsHttp()
  {
    if e.MethodNotAllowed? then HttpMethodNotAllowed else e.status
  }

  /**
   * determineOutputAndStatusCodeForRestMethodException: an HTTP exception
   * passes through; otherwise a new HttpException wraps the original, with 404
   * and "Not found" for NoResult, 500 for NonUnique, and else the original's
   * code if nonzero, 400 if not.
   */
  function DetermineOutput(e: Throwable): (out: Throwable)
    ensures out.IsHttp()
    ensures e.IsHttp() ==> out == e
    ensures e.NoResult? ==> out == Http(HttpNotFound, "Not found", HttpNotFound, Some(e))
    ensures e.NonUnique? ==> out == Http(HttpInternalServerError, e.message, HttpInternalServerError, Some(e))
    ensures !e.IsHttp() && !e.NoResult? && !e.NonUnique? ==>
              out.Http? && out.message == e.Message() && out.previous == Some(e) &&
              out.status == out.code && (e.Code() != 0 ==> out.status == e.Code()) &&
              (e.Code() == 0 ==> out.status == HttpBadRequest)
  {
    var code := GetExceptionCode(e);
    var output := Http(code, e.Message(), code, Some(e));
    if e.IsHttp() then e
    else if e.NoResult? then Http(HttpNotFound, "Not found", HttpNotFound, Some(e))
    else if e.NonUnique? then Http(HttpInternalServerError, e.Message(), HttpInternalServerError, Some(e))
    else output
  }

  /** The modifiable part of the controller: its resource's entity manager, if any. */
  function Managers(c: Controller): set<EntityManager> {
    if c.resource.Some? then {c.resource.value.entityManager} else {}
  }

  /** detachEntityFromManager: detach the entity with that id only if it is found and managed. */
  method DetachEntityFromManager(c: Controller, id: string) returns (r: Outcome<Throwable>)
    modifies Managers(c)
    ensures c.resource.None? ==> r == Fail(ResourceNotSet)
    ensures c.resource.Some? ==>
      var em := c.resource.value.entityManager;
      && r == Pass
      && em.found == old(em.found)
      && em.managed == if id in old(em.found) && id in old(em.managed) then old(em.managed) - {id} else old(em.managed)
  {
    var res := GetResource(c);
    if res.Err? {
      return Fail(res.error);
    }
    var em := res.value.entityManager;
    if id in em.found && id in em.managed {
      em.managed := em.managed - {id};
    }
    r := Pass;
  }

  /**
   * handleRestMethodException: without an id nothing is detached; with one the
   * entity is detached first (which throws if the resource is unset); then the
   * mapped exception is returned, not thrown.
   */
  method HandleRestMethodException(c: Controller, e: Throwable, id: Option<string>) returns (r: Result<Throwable, Throwable>)
    modifies Managers(c)
    ensures id.None? ==> r == Ok(DetermineOutput(e)) && unchanged(Managers(c))
    ensures id.Some? && c.resource.None? ==> r == Err(ResourceNotSet)
    ensures id.Some? && c.resource.Some? ==>
      var em := c.resource.value.entityManager;
      && r == Ok(DetermineOutput(e))
      && em.found == old(em.found)
      && em.managed == if id.value in old(em.found) && id.value in old(em.managed) then old(em.managed) - {id.value} else old(em.managed)
  {
    if id.Some? {
      var detached := DetachEntityFromManager(c, id.value);
      if detached.Fail? {
        return Err(detached.error);
      }
    }
    r := Ok(DetermineOutput(e));
  }

  // ---------------------------------------------------------------------------
  // Form processing, as the calls it makes on the form

  datatype FormCall =
    | CreateNamed(name: string, formType: string, httpMethod: string)
    | SetData(id: string)
    | HandleRequest
    | HandleFormError

  /**
   * processForm, reduced to the calls it makes on the form component. Whether
   * the bound form is valid is given, and so is what the response handler's
   * handleFormError does: return normally (Pass) or throw (Fail), the latter
   * being what it is meant to do.
   */
  function ProcessForm(c: Controller, requestMethod: string, methodName: string, id: Option<string>,
                       formIsValid: bool, formError: Outcome<Throwable>): (r: Result<seq<FormCall>, Throwable>)
    ensures GetFormTypeClass(c, Some(methodName)).Err? ==> r == Err(ResourceNotSet)
    ensures r.Err? <==>
              GetFormTypeClass(c, Some(methodName)).Err? || (id.Some? && c.resource.None?) ||
              (!formIsValid && (c.responseHandler.None? || formError.Fail?))
    ensures GetFormTypeClass(c, Some(methodName)).Ok? && (id.None? || c.resource.Some?) && !formIsValid ==>
              (c.responseHandler.None? ==> r == Err(ResponseHandlerNotSet)) &&
              (c.responseHandler.Some? && formError.Fail? ==> r == Err(formError.error))
    ensures r.Ok? ==>
              r.value == [CreateNamed("", GetFormTypeClass(c, Some(methodName)).value, requestMethod)] +
                         (if id.Some? then [SetData(id.value)] else []) + [HandleRequest] +
                         (if formIsValid then [] else [HandleFormError])
  {
    match GetFormTypeClass(c, Some(methodName))
    case Err(e) => Err(e)
    case Ok(formType) =>
      var created := [CreateNamed("", formType, requestMethod)];
      var withData :=
        if id.None? then Ok(created)
        else match GetResource(c)
          case Err(e) => Err(e)
          case Ok(_) => Ok(created + [SetData(id.value)]);
      match withData
      case Err(e) => Err(e)
      case Ok(calls) =>
        var handled := calls + [HandleRequest];
        if formIsValid then Ok(handled)
        else match GetResponseHandler(c)
          case Err(e) => Err(e)
          case Ok(_) =>
            match formError
            case Fail(e) => Err(e)
            case Pass => Ok(handled + [HandleFormError])
  }

  // ---------------------------------------------------------------------------
  // Lemmas

  /** After a cut the key holds no '::' at all. */
  lemma StrippedKeyHasNoSeparator(m: string, p: nat)
    requires LastSeparator(m) == Some(p) && p != 0
    ensures FormTypeKey(Some(m)) == m[p + 2..]
    ensures !HasSeparator(m[p + 2..])
  {
    SuffixAfterLastHasNoSeparator(m, p);
  }

  lemma NoSeparatorKeyUnchanged(m: string)
    requires !HasSeparator(m)
    ensures LastSeparator(m) == None && FormTypeKey(Some(m)) == m
  {
  }

  /** Resolving the key again changes nothing: the cut is idempotent. */
  lemma FormTypeKeyIdempotent(methodName: Option<string>)
    ensures FormTypeKey(Some(FormTypeKey(methodName))) == FormTypeKey(methodName)
  {
    var m := methodName.GetOr("");
    match LastSeparator(m)
    case Some(p) =>
      if p != 0 {
        StrippedKeyHasNoSeparator(m, p);
        NoSeparatorKeyUnchanged(m[p + 2..]);
      }
    case None =>
  }

  /**
   * A method name qualified by a non-empty prefix resolves like the bare name,
   * when the bare name holds no '::' and does not start with ':'.
   */
  lemma QualifiedNameResolvesLikeBare(c: Controller, prefix: string, name: string)
    requires |prefix| > 0
    requires !HasSeparator(name)
    requires name == [] || name[0] != ':'
    ensures FormTypeKey(Some(prefix + "::" + name)) == name
    ensures GetFormTypeClass(c, Some(prefix + "::" + name)) == GetFormTypeClass(c, Some(name))
  {
    var s := prefix + "::" + name;
    var q := |prefix|;
    assert SeparatorAt(s, q);
    forall j | q < j && j + 1 < |s| ensures !SeparatorAt(s, j) {
      if j == q + 1 {
        assert s[j + 1] == name[0];
      } else {
        assert s[j] == name[j - q - 2] && s[j + 1] == name[j - q - 1];
        assert !SeparatorAt(name, j - q - 2);
      }
    }
    var r := LastSeparator(s);
    assert r == Some(q);
    assert s[q + 2..] == name;
    NoSeparatorKeyUnchanged(name);
  }

  /** A leading '::' is kept, because mb_strrpos then returns the falsy 0. */
  lemma LeadingSeparatorKept(name: string)
    requires !HasSeparator(name)
    requires name == [] || name[0] != ':'
    ensures FormTypeKey(Some("::" + name)) == "::" + name
  {
    var s := "::" + name;
    assert SeparatorAt(s, 0);
    forall j | 0 < j && j + 1 < |s| ensures !SeparatorAt(s, j) {
      if j == 1 {
        assert s[2] == name[0];
      } else {
        assert s[j] == name[j - 2] && s[j + 1] == name[j - 1];
        assert !SeparatorAt(name, j - 2);
      }
    }
    assert LastSeparator(s) == Some(0);
  }

  /**
   * A name that starts with ':' after the qualifier loses that colon: of the
   * overlapping '::' at the qualifier, the later one is the last.
   */
  lemma ColonLedNameLosesColon(prefix: string, name: string)
    requires !HasSeparator(name)
    requires name == [] || name[0] != ':'
    ensures FormTypeKey(Some(prefix + "::" + ":" + name)) == name
  {
    var s := prefix + "::" + ":" + name;
    var q := |prefix| + 1;
    assert SeparatorAt(s, q);
    forall j | q < j && j + 1 < |s| ensures !SeparatorAt(s, j) {
      if j == q + 1 {
        assert s[j + 1] == name[0];
      } else {
        assert s[j] == name[j - q - 2] && s[j + 1] == name[j - q - 1];
        assert !SeparatorAt(name, j - q - 2);
      }
    }
    assert LastSeparator(s) == Some(q);
    assert s[q + 2..] == name;
  }

  /** null resolves the form type through the key ''. */
  lemma NullMethodUsesEmptyKey(c: Controller)
    ensures GetFormTypeClass(c, None) == GetFormTypeClass(c, Some(""))
    ensures FormTypeKey(None) == ""
  {
    assert LastSeparator("") == None;
  }

  /** Every mapped exception is an HTTP exception, so mapping it again changes nothing. */
  lemma DetermineOutputIdempotent(e: Throwable)
    ensures DetermineOutput(DetermineOutput(e)) == DetermineOutput(e)
  {
  }

  /** The status of a mapped exception is never 0, and a new HttpException carries its status as its code. */
  lemma DetermineOutputStatus(e: Throwable)
    ensures Status(DetermineOutput(e)) != 0 || (e.Http? && e.status == 0)
    ensures !e.IsHttp() ==> DetermineOutput(e).Code() == Status(DetermineOutput(e))
  {
  }
}
