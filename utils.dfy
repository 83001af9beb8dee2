/** The environment helpers: `getEnv`, `env` and `getBaseUrl`. The process
    environment is passed in as a map. */
module Utils {
  import opened Common

  type Env = map<string, string>

  /** The parts of a request `getBaseUrl` reads: its (lower-cased) headers,
      the connection protocol and the host. */
  datatype Request = Request(headers: map<string, string>, protocol: string, host: string)

  /** `getEnv(key, defaultValue)`: an empty key throws "Key is required";
      otherwise the variable's value when it is set and non-empty, else the
      default. */
  function GetEnv(env: Env, key: string, default: string): (r: Result<string, JsError>)
    ensures key == "" <==> r.Failure?
    ensures r.Failure? ==> r.error == NewError("Key is required")
    ensures key != "" && key in env && env[key] != "" ==> r == Success(env[key])
    ensures key != "" && (key !in env || env[key] == "") ==> r == Success(default)
    ensures r.Success? && r.value == "" ==> default == ""
  {
    if key == "" then Failure(NewError("Key is required"))
    else if key in env && env[key] != "" then Success(env[key])
    else Success(default)
  }

  /** `env()`: the value of NODE_ENV, or "" when it is not set. */
  function NodeEnv(env: Env): (r: string)
    ensures GetEnv(env, "NODE_ENV", "") == Success(r)
  {
    GetEnv(env, "NODE_ENV", "").value
  }

  /** `getBaseUrl(request)`: BASE_URL when it is set and non-empty; otherwise ""
      without a request, and `proto + "://" + host` with one, where `proto` is
      the x-forwarded-proto header when non-empty, else the connection
      protocol. */
  function GetBaseUrl(env: Env, request: Option<Request>): (r: string)
    ensures "BASE_URL" in env && env["BASE_URL"] != "" ==> r == env["BASE_URL"]
    ensures ("BASE_URL" !in env || env["BASE_URL"] == "") && request.None? ==> r == ""
    ensures ("BASE_URL" !in env || env["BASE_URL"] == "") && request.Some? ==>
      r == ForwardedProto(request.value) + "://" + request.value.host
  {
    var baseUrl := GetEnv(env, "BASE_URL", "").value;
    if baseUrl != "" then baseUrl
    else if request.None? then ""
    else
      var req := request.value;
      ForwardedProto(req) + "://" + req.host
  }

  /** `request.headers['x-forwarded-proto'] || request.connection.info.protocol` */
  function ForwardedProto(req: Request): (proto: string)
    ensures "x-forwarded-proto" in req.headers && req.headers["x-forwarded-proto"] != "" ==>
      proto == req.headers["x-forwarded-proto"]
    ensures !("x-forwarded-proto" in req.headers && req.headers["x-forwarded-proto"] != "") ==>
      proto == req.protocol
  {
    if "x-forwarded-proto" in req.headers && req.headers["x-forwarded-proto"] != "" then
      req.headers["x-forwarded-proto"]
    else req.protocol
  }

  /** The base URL does not depend on the request whenever BASE_URL is set. */
  lemma BaseUrlIgnoresRequest(env: Env, a: Option<Request>, b: Option<Request>)
    requires "BASE_URL" in env && env["BASE_URL"] != ""
    ensures GetBaseUrl(env, a) == GetBaseUrl(env, b) == env["BASE_URL"]
  {
  }
}
