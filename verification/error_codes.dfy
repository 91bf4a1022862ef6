/**
 * The error-code catalogue of the API layer: numeric codes grouped in ranges,
 * the message table, the HTTP-status mapping, the three range predicates and
 * the display formatter of `ErrorHandler`.
 */
module ErrorCodes {
  import opened Wrappers
  import opened Lists
  import opened Text

  // Success
  const SUCCESS := 1

  // Generic errors, 1000-1999
  const UNKNOWN_ERROR := 1000
  const INVALID_PARAMETER := 1001
  const MISSING_PARAMETER := 1002
  const INVALID_FORMAT := 1003
  const DATA_NOT_FOUND := 1004
  const OPERATION_FAILED := 1005
  const PERMISSION_DENIED := 1006
  const RESOURCE_EXISTS := 1007
  const RESOURCE_NOT_FOUND := 1008
  const VALIDATION_FAILED := 1009

  // Authentication and authorisation errors, 2000-2999
  const UNAUTHORIZED := 2000
  const TOKEN_EXPIRED := 2001
  const TOKEN_INVALID := 2002
  const TOKEN_MISSING := 2003
  const INVALID_CREDENTIALS := 2004
  const ACCOUNT_LOCKED := 2005
  const ACCOUNT_DISABLED := 2006
  const INSUFFICIENT_PERMISSIONS := 2007

  // Project errors, 3000-3999
  const PROJECT_NOT_FOUND := 3000
  const PROJECT_ALREADY_EXISTS := 3001
  const PROJECT_NAME_INVALID := 3002
  const PROJECT_DESCRIPTION_TOO_LONG := 3003
  const PROJECT_STATUS_INVALID := 3004
  const PROJECT_OPERATION_FAILED := 3005

  // System errors, 5000-5999
  const INTERNAL_SERVER_ERROR := 5000
  const DATABASE_ERROR := 5001
  const EXTERNAL_SERVICE_ERROR := 5002
  const NETWORK_ERROR := 5003
  const TIMEOUT_ERROR := 5004
  const RATE_LIMIT_EXCEEDED := 5005

  // HTTP statuses, each code equal to its status
  const HTTP_BAD_REQUEST := 400
  const HTTP_UNAUTHORIZED := 401
  const HTTP_FORBIDDEN := 403
  const HTTP_NOT_FOUND := 404
  const HTTP_METHOD_NOT_ALLOWED := 405
  const HTTP_CONFLICT := 409
  const HTTP_UNPROCESSABLE_ENTITY := 422
  const HTTP_TOO_MANY_REQUESTS := 429
  const HTTP_INTERNAL_SERVER_ERROR := 500
  const HTTP_BAD_GATEWAY := 502
  const HTTP_SERVICE_UNAVAILABLE := 503
  const HTTP_GATEWAY_TIMEOUT := 504

  /** The HTTP-status members of the catalogue, in ascending order. */
  const HttpCodes: seq<int> := [
    HTTP_BAD_REQUEST, HTTP_UNAUTHORIZED, HTTP_FORBIDDEN, HTTP_NOT_FOUND,
    HTTP_METHOD_NOT_ALLOWED, HTTP_CONFLICT, HTTP_UNPROCESSABLE_ENTITY,
    HTTP_TOO_MANY_REQUESTS, HTTP_INTERNAL_SERVER_ERROR, HTTP_BAD_GATEWAY,
    HTTP_SERVICE_UNAVAILABLE, HTTP_GATEWAY_TIMEOUT
  ]

  /** The generic codes, 1000-1009. */
  const GenericCodes: seq<int> := [
    UNKNOWN_ERROR, INVALID_PARAMETER, MISSING_PARAMETER, INVALID_FORMAT,
    DATA_NOT_FOUND, OPERATION_FAILED, PERMISSION_DENIED, RESOURCE_EXISTS,
    RESOURCE_NOT_FOUND, VALIDATION_FAILED
  ]

  /** The authentication codes, 2000-2007. */
  const AuthCodes: seq<int> := [
    UNAUTHORIZED, TOKEN_EXPIRED, TOKEN_INVALID, TOKEN_MISSING,
    INVALID_CREDENTIALS, ACCOUNT_LOCKED, ACCOUNT_DISABLED, INSUFFICIENT_PERMISSIONS
  ]

  /** The project codes, 3000-3005. */
  const ProjectCodes: seq<int> := [
    PROJECT_NOT_FOUND, PROJECT_ALREADY_EXISTS, PROJECT_NAME_INVALID,
    PROJECT_DESCRIPTION_TOO_LONG, PROJECT_STATUS_INVALID, PROJECT_OPERATION_FAILED
  ]

  /** The system codes, 5000-5005. */
  const SystemCodes: seq<int> := [
    INTERNAL_SERVER_ERROR, DATABASE_ERROR, EXTERNAL_SERVICE_ERROR,
    NETWORK_ERROR, TIMEOUT_ERROR, RATE_LIMIT_EXCEEDED
  ]

  /** Every member of the catalogue, in ascending order. */
  const AllCodes: seq<int> := [SUCCESS] + HttpCodes + GenericCodes + AuthCodes + ProjectCodes + SystemCodes

  /** The message table `ErrorMessages`: the entry of `code`, if it has one.
      No entry is empty, and the unknown-error code reads "未知错误". */
  function MessageOf(code: int): (m: Option<string>)
    ensures m.Some? ==> m.value != ""
    ensures code == UNKNOWN_ERROR ==> m == Some(UnknownMessage)
  {
    match code
    case 1 => Some("操作成功")  // SUCCESS
    case 1000 => Some("未知错误")  // UNKNOWN_ERROR
    case 1001 => Some("参数无效")  // INVALID_PARAMETER
    case 1002 => Some("缺少必要参数")  // MISSING_PARAMETER
    case 1003 => Some("数据格式错误")  // INVALID_FORMAT
    case 1004 => Some("数据不存在")  // DATA_NOT_FOUND
    case 1005 => Some("操作失败")  // OPERATION_FAILED
    case 1006 => Some("权限不足")  // PERMISSION_DENIED
    case 1007 => Some("资源已存在")  // RESOURCE_EXISTS
    case 1008 => Some("资源不存在")  // RESOURCE_NOT_FOUND
    case 1009 => Some("数据验证失败")  // VALIDATION_FAILED
    case 2000 => Some("未授权访问")  // UNAUTHORIZED
    case 2001 => Some("访问令牌已过期")  // TOKEN_EXPIRED
    case 2002 => Some("访问令牌无效")  // TOKEN_INVALID
    case 2003 => Some("缺少访问令牌")  // TOKEN_MISSING
    case 2004 => Some("用户名或密码错误")  // INVALID_CREDENTIALS
    case 2005 => Some("账户已被锁定")  // ACCOUNT_LOCKED
    case 2006 => Some("账户已被禁用")  // ACCOUNT_DISABLED
    case 2007 => Some("权限不足")  // INSUFFICIENT_PERMISSIONS
    case 3000 => Some("项目不存在")  // PROJECT_NOT_FOUND
    case 3001 => Some("项目名称已存在")  // PROJECT_ALREADY_EXISTS
    case 3002 => Some("项目名称无效")  // PROJECT_NAME_INVALID
    case 3003 => Some("项目描述过长")  // PROJECT_DESCRIPTION_TOO_LONG
    case 3004 => Some("项目状态无效")  // PROJECT_STATUS_INVALID
    case 3005 => Some("项目操作失败")  // PROJECT_OPERATION_FAILED
    case 5000 => Some("服务器内部错误")  // INTERNAL_SERVER_ERROR
    case 5001 => Some("数据库操作错误")  // DATABASE_ERROR
    case 5002 => Some("外部服务调用失败")  // EXTERNAL_SERVICE_ERROR
    case 5003 => Some("网络连接错误")  // NETWORK_ERROR
    case 5004 => Some("请求超时")  // TIMEOUT_ERROR
    case 5005 => Some("请求频率超限")  // RATE_LIMIT_EXCEEDED
    case 400 => Some("请求参数错误")  // HTTP_BAD_REQUEST
    case 401 => Some("未授权访问")  // HTTP_UNAUTHORIZED
    case 403 => Some("禁止访问")  // HTTP_FORBIDDEN
    case 404 => Some("资源不存在")  // HTTP_NOT_FOUND
    case 405 => Some("请求方法不允许")  // HTTP_METHOD_NOT_ALLOWED
    case 409 => Some("资源冲突")  // HTTP_CONFLICT
    case 422 => Some("请求数据无法处理")  // HTTP_UNPROCESSABLE_ENTITY
    case 429 => Some("请求过于频繁")  // HTTP_TOO_MANY_REQUESTS
    case 500 => Some("服务器内部错误")  // HTTP_INTERNAL_SERVER_ERROR
    case 502 => Some("网关错误")  // HTTP_BAD_GATEWAY
    case 503 => Some("服务不可用")  // HTTP_SERVICE_UNAVAILABLE
    case 504 => Some("网关超时")  // HTTP_GATEWAY_TIMEOUT
    case _ => None
  }

  /** The message every unrecognised failure falls back to. */
  const UnknownMessage := "未知错误"

  /** The catalogue's 43 constants are pairwise distinct. */
  lemma CatalogueDistinct()
    ensures |AllCodes| == 43 && NoDup(AllCodes)
  {
    assert Increasing(AllCodes);
    IncreasingNoDup(AllCodes);
  }

  /** Every catalogue code has an entry in the message table. */
  lemma CatalogueCodesHaveMessages()
    ensures forall c :: c in AllCodes ==> MessageOf(c).Some?
  {
    GroupHasMessages(HttpCodes);
    GroupHasMessages(GenericCodes);
    GroupHasMessages(AuthCodes);
    GroupHasMessages(ProjectCodes);
    GroupHasMessages(SystemCodes);
    forall c | c in AllCodes ensures MessageOf(c).Some? {
      assert c == SUCCESS || c in HttpCodes || c in GenericCodes || c in AuthCodes || c in ProjectCodes || c in SystemCodes;
    }
  }

  /** Each group of the catalogue has its messages. */
  lemma GroupHasMessages(group: seq<int>)
    requires group in [HttpCodes, GenericCodes, AuthCodes, ProjectCodes, SystemCodes]
    ensures forall c :: c in group ==> MessageOf(c).Some?
  {
    forall i | 0 <= i < |group| ensures MessageOf(group[i]).Some? {
    }
  }

  /** The message table has no entry beyond the catalogue's codes. */
  lemma MessagesOnlyForCatalogueCodes()
    ensures forall c :: MessageOf(c).Some? ==> c in AllCodes
  {
  }

  /** `getErrorMessage`: the table entry, or the unknown-error message when
      the entry is missing or empty. */
  function GetErrorMessage(code: int): (m: string)
    ensures m != ""
    ensures MessageOf(code).Some? ==> m == MessageOf(code).value
    ensures MessageOf(code).None? ==> m == UnknownMessage
  {
    var entry := MessageOf(code);
    if entry.Some? && entry.value != "" then entry.value else MessageOf(UNKNOWN_ERROR).value
  }

  /** `getErrorCodeFromHttpStatus`: the listed statuses map to themselves,
      every other integer to the unknown-error code; the result is always a
      catalogue code. */
  function CodeFromHttpStatus(status: int): (c: int)
    ensures status in HttpCodes ==> c == status
    ensures status !in HttpCodes ==> c == UNKNOWN_ERROR
    ensures MessageOf(c).Some?
  {
    match status
    case 400 => HTTP_BAD_REQUEST
    case 401 => HTTP_UNAUTHORIZED
    case 403 => HTTP_FORBIDDEN
    case 404 => HTTP_NOT_FOUND
    case 405 => HTTP_METHOD_NOT_ALLOWED
    case 409 => HTTP_CONFLICT
    case 422 => HTTP_UNPROCESSABLE_ENTITY
    case 429 => HTTP_TOO_MANY_REQUESTS
    case 500 => HTTP_INTERNAL_SERVER_ERROR
    case 502 => HTTP_BAD_GATEWAY
    case 503 => HTTP_SERVICE_UNAVAILABLE
    case 504 => HTTP_GATEWAY_TIMEOUT
    case _ => UNKNOWN_ERROR
  }

  /** `isBusinessError`: the half-open range [1000, 5000). Every generic,
      authentication and project code of the catalogue is a business
      error, and no system code is. */
  predicate IsBusiness(code: int)
    ensures code in GenericCodes || code in AuthCodes || code in ProjectCodes ==> IsBusiness(code)
    ensures code in SystemCodes ==> !IsBusiness(code)
  {
    code >= 1000 && code < 5000
  }

  /** `isSystemError`: every code from 5000 up. Exactly the system codes of
      the catalogue are system errors, and a system error is never a
      business error. */
  predicate IsSystem(code: int)
    ensures code in AllCodes ==> (IsSystem(code) <==> code in SystemCodes)
    ensures IsSystem(code) ==> !IsBusiness(code)
  {
    code >= 5000
  }

  /** `isAuthError`: the half-open range [2000, 3000). Exactly the
      authentication codes of the catalogue are auth errors, and each is
      also a business error. */
  predicate IsAuth(code: int)
    ensures code in AllCodes ==> (IsAuth(code) <==> code in AuthCodes)
    ensures IsAuth(code) ==> IsBusiness(code)
  {
    code >= 2000 && code < 3000
  }

  /** The auth range lies inside the business range, so the two predicates
      are not exclusive: TOKEN_EXPIRED satisfies both. */
  lemma AuthIsBusiness(code: int)
    ensures IsAuth(code) ==> IsBusiness(code)
    ensures IsAuth(TOKEN_EXPIRED) && IsBusiness(TOKEN_EXPIRED)
  {
  }

  /** Business and system never overlap, and together they cover every code
      from 1000 up with no gap. */
  lemma BusinessSystemPartition(code: int)
    ensures !(IsBusiness(code) && IsSystem(code))
    ensures code >= 1000 ==> IsBusiness(code) || IsSystem(code)
    ensures code < 1000 ==> !IsBusiness(code) && !IsSystem(code) && !IsAuth(code)
  {
  }

  /** SUCCESS and the HTTP-status codes fall in none of the three ranges. */
  lemma SuccessAndHttpUnclassified()
    ensures forall c :: c in [SUCCESS] + HttpCodes ==> !IsBusiness(c) && !IsSystem(c) && !IsAuth(c)
  {
  }

  /** The catalogue's own grouping agrees with the range predicates: the
      comment ranges of the declaration are the ranges the predicates test. */
  lemma CatalogueRanges()
    ensures forall c :: c in AllCodes && 2000 <= c < 3000 ==> IsAuth(c) && IsBusiness(c)
    ensures forall c :: c in AllCodes && c >= 5000 ==> IsSystem(c) && c <= RATE_LIMIT_EXCEEDED
    ensures forall c :: c in AllCodes && c < 1000 ==> c == SUCCESS || c in HttpCodes
  {
  }

  /** The normalised error shape `ApiError`. */
  datatype ApiError = ApiError(
    code: int,
    message: string,
    details: Option<string>,
    timestamp: Option<string>,
    path: Option<string>)

  /** JavaScript truthiness of the optional `details` field. */
  predicate HasDetails(e: ApiError)
  {
    e.details.Some? && e.details.value != ""
  }

  /** `createApiError`: the catalogue message of `code` and exactly the given
      details; `now` is the ISO timestamp the clock would supply. */
  function CreateApiError(code: int, details: Option<string>, now: string): (e: ApiError)
    ensures e.code == code && e.details == details && e.timestamp == Some(now)
    ensures e.message != ""
    ensures MessageOf(code).Some? ==> e.message == MessageOf(code).value
    ensures MessageOf(code).None? ==> e.message == UnknownMessage
  {
    ApiError(code, GetErrorMessage(code), details, Some(now), None)
  }

  /** `formatErrorForDisplay`: message, then `": "` and the details when
      there are any. */
  function FormatErrorForDisplay(e: ApiError): (s: string)
    ensures StartsWith(s, e.message)
    ensures !HasDetails(e) <==> s == e.message
  {
    if HasDetails(e) then e.message + ": " + e.details.value else e.message
  }

  /** The details can be read back from the formatted text: whatever follows
      the message and the `": "` separator is exactly the details. */
  lemma FormatRecoversDetails(e: ApiError)
    requires HasDetails(e)
    ensures var s := FormatErrorForDisplay(e);
      && s[|e.message|..|e.message| + 2] == ": "
      && s[|e.message| + 2..] == e.details.value
  {
  }
}
