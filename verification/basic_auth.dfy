/**
 * The `basicAuth` middleware of server.js: every request except the health
 * check and CORS preflight needs an `Authorization: Basic` header whose
 * decoded `user:password` names a getcollate.io address and the password
 * "admin".
 *
 * Base64 decoding is a parameter (`Buffer.from(s, 'base64').toString('utf8')`
 * never throws on a string); case folding is ASCII only.
 */
module BasicAuth {
  import opened Common
  import opened JsStrings

  datatype Request = Request(path: string, httpMethod: string, authorization: Option<string>)

  /** `next()`, or a 401 response with its body and whether it carries `WWW-Authenticate`. */
  datatype Decision = Next | Reject(body: string, challenge: bool)

  const RequiredText: string := "Authentication required"
  const InvalidText: string := "Invalid credentials"
  const CompanySuffix: string := "@getcollate.io"
  const Password: string := "admin"

  /** `header.split(' ')[1] || ''`. */
  function Token(header: string): string {
    var words := Split(header, " ");
    if |words| >= 2 then words[1] else ""
  }

  /** `const [username, password] = decoded.split(':')`: the password is undefined without a colon. */
  function UserName(decoded: string): string {
    Split(decoded, ":")[0]
  }

  function PasswordOf(decoded: string): Option<string> {
    var fields := Split(decoded, ":");
    if |fields| >= 2 then Some(fields[1]) else None
  }

  /** `isEmail && username.toLowerCase().endsWith('@getcollate.io') && password === 'admin'`. */
  predicate Accepted(decoded: string) {
    var user := UserName(decoded);
    Contains(user, "@") && EndsWith(ToLower(user), CompanySuffix) && PasswordOf(decoded) == Some(Password)
  }

  function Authenticate(req: Request, decode: string -> string): (d: Decision)
    ensures d == Next || d == Reject(RequiredText, true) || d == Reject(InvalidText, true)
  {
    if req.path == "/health" || req.httpMethod == "OPTIONS" then Next
    else
      var header := if req.authorization.Some? then req.authorization.value else "";
      if !StartsWith(header, "Basic ") then Reject(RequiredText, true)
      else if Accepted(decode(Token(header))) then Next
      else Reject(InvalidText, true)
  }

  /** The health check and preflight requests pass without credentials. */
  lemma ExemptRequestsPass(req: Request, decode: string -> string)
    requires req.path == "/health" || req.httpMethod == "OPTIONS"
    ensures Authenticate(req, decode) == Next
  {
  }

  /** Any other request passes exactly when it has a Basic header whose decoded token is accepted. */
  lemma AuthenticatePasses(req: Request, decode: string -> string)
    requires req.path != "/health" && req.httpMethod != "OPTIONS"
    ensures Authenticate(req, decode) == Next <==>
      req.authorization.Some? && StartsWith(req.authorization.value, "Basic ") &&
      Accepted(decode(Token(req.authorization.value)))
    ensures Authenticate(req, decode) == Reject(RequiredText, true) <==>
      req.authorization.None? || !StartsWith(req.authorization.value, "Basic ")
  {
  }

  /** The contains-`@` test adds nothing: the suffix test already implies it. */
  lemma SuffixImpliesAt(user: string)
    requires EndsWith(ToLower(user), CompanySuffix)
    ensures Contains(user, "@")
  {
    var i := |user| - |CompanySuffix|;
    assert ToLower(user)[i] == CompanySuffix[0] == '@';
    assert LowerChar(user[i]) == '@';
    assert user[i..i + 1] == "@";
    assert OccursAt(user, "@", i);
  }

  /** The token is the word right after "Basic ". */
  lemma TokenAfterBasic(token: string)
    requires token != "" && NoChar(token, ' ')
    ensures Token("Basic " + token) == token
  {
    assert "Basic " + token == "Basic" + " " + token;
    SplitAtFirst("Basic", " ", token);
    NoOccurrence(token, " ");
    IndexOfAbsent(token, " ", 0);
  }

  /** A company address with the password, and anything after a second colon, is accepted. */
  lemma PasswordTruncated(user: string, rest: string)
    requires NoChar(user, ':') && EndsWith(ToLower(user), CompanySuffix)
    ensures Accepted(user + ":" + Password + ":" + rest)
    ensures Accepted(user + ":" + Password)
  {
    SuffixImpliesAt(user);
    var tail := Password + ":" + rest;
    assert user + ":" + Password + ":" + rest == user + ":" + tail;
    SplitAtFirst(user, ":", tail);
    SplitAtFirst(Password, ":", rest);
    SplitAtFirst(user, ":", Password);
    NoOccurrence(Password, ":");
    IndexOfAbsent(Password, ":", 0);
  }

  /** Without a colon there is no password, so nothing is accepted. */
  lemma NoColonRejected(decoded: string)
    requires NoChar(decoded, ':')
    ensures !Accepted(decoded)
  {
    NoOccurrence(decoded, ":");
    IndexOfAbsent(decoded, ":", 0);
  }

  /** The domain test ignores ASCII case but needs the whole suffix: a look-alike domain is refused. */
  lemma LookalikeDomainRejected(name: string)
    requires NoChar(name, ':')
    ensures !Accepted(name + "@getcollate.io.evil" + ":" + Password)
  {
    var user := name + "@getcollate.io.evil";
    assert NoChar(user, ':');
    SplitAtFirst(user, ":", Password);
    var low := ToLower(user);
    assert low[|low| - 1] == LowerChar(user[|user| - 1]) == 'l';
  }
}
