/** The request-level security middlewares: input sanitising (its structure; the string
    rewrite itself is the parameter `clean`), the CSRF token check, the upload type and
    size check, the request size limit, the query de-duplication and the response
    security headers. */
module Security {
  import opened Common
  import ErrorHandler

  // ----- sanitizeInput / sanitizeObject -----

  /** `sanitizeObject`: every string is rewritten by `clean`, arrays element by
      element, objects key by key in enumeration order, anything else as it is. */
  function Sanitized(j: Json, clean: string -> string): Json
    decreases j
  {
    match j
    case JString(s) => JString(clean(s))
    case JArray(items) => JArray(seq(|items|, k requires 0 <= k < |items| => Sanitized(items[k], clean)))
    case JObject(fields) => JObject(seq(|fields|, k requires 0 <= k < |fields| => (fields[k].0, Sanitized(fields[k].1, clean))))
    case _ => j
  }

  /** `b` differs from `a` only in its strings: arrays keep their length and order,
      objects their keys in order, and every non-string leaf is the same value. */
  predicate SameShape(a: Json, b: Json)
    decreases a
  {
    match a
    case JString(_) => b.JString?
    case JArray(xs) =>
      b.JArray? && |b.items| == |xs| && forall k :: 0 <= k < |xs| ==> SameShape(xs[k], b.items[k])
    case JObject(fs) =>
      && b.JObject? && |b.fields| == |fs|
      && (forall k :: 0 <= k < |fs| ==> b.fields[k].0 == fs[k].0)
      && (forall k :: 0 <= k < |fs| ==> SameShape(fs[k].1, b.fields[k].1))
    case _ => b == a
  }

  /** Sanitising keeps the shape of the value and rewrites nothing but strings. */
  lemma {:induction false} SanitizeKeepsShape(j: Json, clean: string -> string)
    ensures SameShape(j, Sanitized(j, clean))
    decreases j
  {
    match j
    case JArray(items) =>
      forall k | 0 <= k < |items| ensures SameShape(items[k], Sanitized(j, clean).items[k]) {
        SanitizeKeepsShape(items[k], clean);
      }
    case JObject(fields) =>
      forall k | 0 <= k < |fields| ensures SameShape(fields[k].1, Sanitized(j, clean).fields[k].1) {
        SanitizeKeepsShape(fields[k].1, clean);
      }
    case _ =>
  }

  /** A rewrite that leaves every string alone leaves every value alone. */
  lemma {:induction false} SanitizeIdentity(j: Json, clean: string -> string)
    requires forall s :: clean(s) == s
    ensures Sanitized(j, clean) == j
    decreases j
  {
    match j
    case JArray(items) =>
      forall k | 0 <= k < |items| ensures Sanitized(items[k], clean) == items[k] {
        SanitizeIdentity(items[k], clean);
      }
      assert Sanitized(j, clean).items == items;
    case JObject(fields) =>
      forall k | 0 <= k < |fields| ensures Sanitized(fields[k].1, clean) == fields[k].1 {
        SanitizeIdentity(fields[k].1, clean);
      }
      assert Sanitized(j, clean).fields == fields;
    case _ =>
  }

  /** The object case fills a fresh object one own key at a time, as the `for...in`
      loop does; the array case is `map`, element by element. */
  method SanitizeObject(j: Json, clean: string -> string) returns (r: Json)
    ensures r == Sanitized(j, clean)
    decreases j
  {
    match j {
      case JString(s) =>
        return JString(clean(s));
      case JArray(items) =>
        var mapped: seq<Json> := [];
        for i := 0 to |items|
          invariant |mapped| == i
          invariant forall k :: 0 <= k < i ==> mapped[k] == Sanitized(items[k], clean)
        {
          var value := SanitizeObject(items[i], clean);
          mapped := mapped + [value];
        }
        return JArray(mapped);
      case JObject(fields) =>
        var sanitized: seq<(string, Json)> := [];
        var i := 0;
        while i < |fields|
          invariant 0 <= i <= |fields| && |sanitized| == i
          invariant forall k :: 0 <= k < i ==> sanitized[k] == (fields[k].0, Sanitized(fields[k].1, clean))
        {
          var value := SanitizeObject(fields[i].1, clean);
          sanitized := sanitized + [(fields[i].0, value)];
          i := i + 1;
        }
        return JObject(sanitized);
      case _ =>
        return j;
    }
  }

  // ----- csrfProtection -----

  /** `body` is `req.body` as this middleware sees it: None while no body parser has
      run (it is `undefined`), otherwise the parsed body's `_csrf` field. */
  datatype CsrfRequest = CsrfRequest(
    httpMethod: string, path: string, headerToken: Option<string>, body: Option<Option<string>>,
    sessionToken: Option<string>)

  /** The TypeError that reading `_csrf` of an undefined body raises. */
  const UnparsedBodyMessage := "Cannot read properties of undefined (reading '_csrf')"

  /** `req.headers['x-csrf-token'] || req.body._csrf`, where the body is read only when
      the header is falsy; None also when that read throws. */
  function SubmittedToken(r: CsrfRequest): Option<string> {
    if NonEmpty(r.headerToken).Some? then r.headerToken
    else if r.body.Some? then r.body.value
    else None
  }

  function CsrfProtection(r: CsrfRequest): Verdict {
    if r.httpMethod == "GET" || StartsWith(r.path, "/api/auth/") then Next
    else if NonEmpty(r.headerToken).None? && r.body.None? then Throws(UnparsedBodyMessage)
    else
      var token := SubmittedToken(r);
      if NonEmpty(token).None? || NonEmpty(r.sessionToken).None? || token.value != r.sessionToken.value
      then Respond(403, "Invalid CSRF token")
      else Next
  }

  /** Reads and the authentication routes always pass; anything else throws exactly
      when no header token was sent and there is no body to read, passes exactly when a
      non-empty token was sent and equals a non-empty session token, and is otherwise
      refused with 403. */
  lemma CsrfGate(r: CsrfRequest)
    ensures CsrfProtection(r).Respond? ==> CsrfProtection(r) == Respond(403, "Invalid CSRF token")
    ensures CsrfProtection(r).Throws? <==>
      && r.httpMethod != "GET" && !StartsWith(r.path, "/api/auth/")
      && (r.headerToken.None? || r.headerToken.value == [])
      && r.body.None?
    ensures CsrfProtection(r).Throws? ==> CsrfProtection(r) == Throws(UnparsedBodyMessage)
    ensures CsrfProtection(r).Next? <==>
      || r.httpMethod == "GET"
      || StartsWith(r.path, "/api/auth/")
      || (SubmittedToken(r).Some? && SubmittedToken(r).value != [] && r.sessionToken == SubmittedToken(r))
  {
  }

  /** A header token takes precedence over one in the body; a state-changing request
      without any session token is never let through. */
  lemma CsrfHeaderFirst(r: CsrfRequest)
    requires r.httpMethod != "GET" && !StartsWith(r.path, "/api/auth/")
    ensures r.headerToken.Some? && r.headerToken.value != [] ==>
      (CsrfProtection(r).Next? <==> r.sessionToken == r.headerToken)
    ensures r.sessionToken.None? ==> !CsrfProtection(r).Next?
  {
  }

  /** In the order the server mounts its middleware the body parsers come after this
      check, so `req.body` is still undefined: a state-changing request outside
      `/api/auth/` without a header token throws, and the error handler answers 500
      with the TypeError's message (and its stack in development). */
  lemma CsrfBeforeBodyParsing(r: CsrfRequest, stack: Option<string>, nodeEnv: string)
    requires r.body.None?
    requires r.httpMethod != "GET" && !StartsWith(r.path, "/api/auth/")
    ensures (r.headerToken.None? || r.headerToken.value == []) ==>
      var e := ErrorHandler.ThrownError(None, "TypeError", None, None, None, Some(UnparsedBodyMessage), stack);
      && CsrfProtection(r) == Throws(UnparsedBodyMessage)
      && ErrorHandler.HandleError(e, nodeEnv).status == 500
      && ErrorHandler.HandleError(e, nodeEnv).message == UnparsedBodyMessage
      && (nodeEnv == "development" ==> ErrorHandler.HandleError(e, nodeEnv).stack == stack)
    ensures r.headerToken.Some? && r.headerToken.value != [] ==>
      (CsrfProtection(r).Next? <==> r.sessionToken == r.headerToken)
      && (!CsrfProtection(r).Next? ==> CsrfProtection(r) == Respond(403, "Invalid CSRF token"))
  {
  }

  // ----- validateFileUpload -----

  datatype FileInfo = FileInfo(originalname: string, mimetype: string, size: nat)

  const MaxFileSize := 10 * 1024 * 1024

  const AllowedMimeTypes: seq<string> := [
    "image/jpeg", "image/png", "image/gif", "application/pdf", "video/mp4", "video/avi", "audio/mpeg", "audio/wav"]

  const DangerousExtensions: seq<string> := [".exe", ".bat", ".cmd", ".scr", ".pif", ".com", ".js", ".vbs", ".jar"]

  /** `originalname.toLowerCase().substring(originalname.lastIndexOf('.'))`: from the
      last dot on, or the whole lower-cased name when there is no dot. */
  function DottedExtension(name: string): (e: string)
    ensures '.' !in name ==> e == Lower(name)
    ensures '.' in name ==> e == Lower(name)[LastIndexOf(name, '.')..] && e[0] == '.'
  {
    SubstringFrom(Lower(name), LastIndexOf(name, '.'))
  }

  function UploadVerdict(f: FileInfo): Verdict {
    if f.size > MaxFileSize then Respond(400, "File " + f.originalname + " is too large. Maximum size is 10MB.")
    else if f.mimetype !in AllowedMimeTypes then Respond(400, "File type " + f.mimetype + " is not allowed.")
    else if DottedExtension(f.originalname) in DangerousExtensions then
      Respond(400, "File extension " + DottedExtension(f.originalname) + " is not allowed.")
    else Next
  }

  /** A file passes exactly when it is at most 10 MB, has one of the eight types, and its
      name does not end in a dangerous extension; a name without a dot never counts as
      having one, since every dangerous extension starts with a dot. */
  lemma UploadGate(f: FileInfo)
    ensures UploadVerdict(f).Next? <==>
      f.size <= 10485760 && f.mimetype in AllowedMimeTypes && DottedExtension(f.originalname) !in DangerousExtensions
    ensures '.' !in f.originalname ==> DottedExtension(f.originalname) !in DangerousExtensions
    ensures f.size == 10485760 && f.mimetype == "application/pdf" && '.' !in f.originalname ==> UploadVerdict(f).Next?
  {
    if '.' !in f.originalname {
      var e := Lower(f.originalname);
      forall k | 0 <= k < |DangerousExtensions| ensures e != DangerousExtensions[k] {
        assert DangerousExtensions[k][0] == '.';
        if |e| > 0 {
          assert f.originalname[0] in f.originalname;
          assert e[0] == LowerChar(f.originalname[0]) != '.';
        }
      }
    }
  }

  /** The extension of a name ending in a dotted suffix with no other dot is that suffix
      in lower case, whatever comes before it. */
  lemma ExtensionOfSuffix(base: string, ext: string)
    requires |ext| > 0 && ext[0] == '.' && '.' !in ext[1..]
    ensures DottedExtension(base + ext) == Lower(ext)
  {
    var name := base + ext;
    assert name[|base|] == '.';
    forall k | |base| < k < |name| ensures name[k] != '.' {
      assert name[k] == ext[1..][k - |base| - 1];
    }
    assert LastIndexOf(name, '.') == |base|;
    assert Lower(name)[|base|..] == Lower(ext);
  }

  /** Only the last extension counts, and in any case: `report.EXE` is refused, for any
      base name and when the size and type pass. */
  lemma UpperCaseExeRefused(base: string)
    ensures var f := FileInfo(base + ".EXE", "application/pdf", 0);
      UploadVerdict(f) == Respond(400, "File extension .exe is not allowed.")
  {
    var f := FileInfo(base + ".EXE", "application/pdf", 0);
    ExtensionOfSuffix(base, ".EXE");
    assert Lower(".EXE") == ".exe" by {
      assert LowerChar('E') == 'e' && LowerChar('X') == 'x';
    }
    assert ".exe" == DangerousExtensions[0];
    assert AllowedMimeTypes[3] == "application/pdf";
    assert "File extension " + ".exe" + " is not allowed." == "File extension .exe is not allowed.";
  }

  /** The files in order, null entries skipped; the first refusal answers. */
  method ValidateFileUpload(files: seq<Option<FileInfo>>) returns (v: Verdict)
    ensures v.Next? <==> forall k :: 0 <= k < |files| && files[k].Some? ==> UploadVerdict(files[k].value).Next?
    ensures v.Respond? ==> exists k :: 0 <= k < |files| && files[k].Some? && UploadVerdict(files[k].value) == v &&
                             forall e :: 0 <= e < k && files[e].Some? ==> UploadVerdict(files[e].value).Next?
  {
    for i := 0 to |files|
      invariant forall e :: 0 <= e < i && files[e].Some? ==> UploadVerdict(files[e].value).Next?
    {
      if files[i].Some? {
        var verdict := UploadVerdict(files[i].value);
        if verdict.Respond? {
          return verdict;
        }
      }
    }
    return Next;
  }

  // ----- limitRequestSize -----

  const MaxRequestSize := 50 * 1024 * 1024

  /** A content-length that `parseInt` reads as more than 50 MB is refused; a missing,
      empty or unreadable one passes. */
  function LimitRequestSize(contentLength: Option<string>): Verdict {
    if NonEmpty(contentLength).Some? && ParseInt(contentLength.value).Some? && ParseInt(contentLength.value).value > MaxRequestSize
    then Respond(413, "Request entity too large")
    else Next
  }

  /** As written by a client: exactly 50 MB passes and one byte more is refused. */
  lemma RequestSizeBoundary(n: nat)
    ensures LimitRequestSize(Some(NatToString(n))).Next? <==> n <= 52428800
    ensures LimitRequestSize(None) == Next
  {
    ParseIntOfNatToString(n);
  }

  // ----- preventParameterPollution -----

  const SingleValueParams: seq<string> := ["page", "limit", "sort", "order"]

  /** The query after collapsing the arrays of the keys in `keys`: such a key keeps its
      first element, and an empty array leaves the key without a value. */
  function Collapse(q: map<string, Json>, keys: set<string>): map<string, Json> {
    map k | k in q && !(k in keys && q[k].JArray? && q[k].items == []) ::
      if k in keys && q[k].JArray? then q[k].items[0] else q[k]
  }

  /** `req.query`, which this middleware rewrites in place. */
  class Query {
    var params: map<string, Json>

    constructor (params: map<string, Json>)
      ensures this.params == params
    {
      this.params := params;
    }

    method PreventParameterPollution()
      modifies this
      ensures params == Collapse(old(params), set k | k in SingleValueParams)
    {
      ghost var original := params;
      for i := 0 to |SingleValueParams|
        invariant params == Collapse(original, Collapsed(i))
      {
        var param := SingleValueParams[i];
        ghost var before := Collapsed(i);
        CollapsedStep(i);
        if param in params && params[param].JArray? {
          var first := if params[param].items == [] then None else Some(params[param].items[0]);
          if first.Some? {
            params := params[param := first.value];
          } else {
            params := params - {param};
          }
        }
        CollapseStep(original, before, param);
      }
      assert SingleValueParams[..|SingleValueParams|] == SingleValueParams;
    }
  }

  /** The keys the loop has collapsed after `i` rounds. */
  function Collapsed(i: nat): set<string>
    requires i <= |SingleValueParams|
  {
    set k | k in SingleValueParams[..i]
  }

  lemma CollapsedStep(i: nat)
    requires i < |SingleValueParams|
    ensures Collapsed(i + 1) == Collapsed(i) + {SingleValueParams[i]}
    ensures SingleValueParams[i] !in Collapsed(i)
  {
    assert SingleValueParams[..i + 1] == SingleValueParams[..i] + [SingleValueParams[i]];
  }

  /** Collapsing one more key is collapsing it in what is already collapsed. */
  lemma CollapseStep(q: map<string, Json>, keys: set<string>, key: string)
    requires key !in keys
    ensures var c := Collapse(q, keys);
      Collapse(q, keys + {key}) ==
        if key in c && c[key].JArray? then (if c[key].items == [] then c - {key} else c[key := c[key].items[0]]) else c
  {
  }

  /** Only the four paging and sorting keys change; each such key given as an array of
      strings becomes its first string, and every other key keeps its value. */
  lemma PollutionOnlyTouchesPaging(q: map<string, Json>)
    ensures var c := Collapse(q, set k | k in SingleValueParams);
      && (forall k :: k in q && k !in SingleValueParams ==> k in c && c[k] == q[k])
      && (forall k :: k in q && k in SingleValueParams && !q[k].JArray? ==> k in c && c[k] == q[k])
      && (forall k :: k in q && k in SingleValueParams && q[k].JArray? && q[k].items != [] ==> k in c && c[k] == q[k].items[0])
      && c.Keys <= q.Keys
    ensures forall s: string, rest: seq<Json> :: "page" in q && q["page"] == JArray([JString(s)] + rest) ==>
      Collapse(q, set k | k in SingleValueParams)["page"] == JString(s)
  {
  }

  // ----- securityHeaders -----

  const HstsValue := "max-age=31536000; includeSubDomains"
  const ContentSecurityPolicy :=
    "default-src 'self'; " + "script-src 'self' 'unsafe-inline' 'unsafe-eval'; " + "style-src 'self' 'unsafe-inline'; " +
    "img-src 'self' data: https:; " + "font-src 'self' https:; " + "connect-src 'self' ws: wss:;"

  /** The headers a response carries, which `setHeader` overwrites one at a time. */
  class ResponseHeaders {
    var headers: map<string, string>

    constructor ()
      ensures headers == map[]
    {
      headers := map[];
    }

    method SetHeader(name: string, value: string)
      modifies this
      ensures headers == old(headers)[name := value]
    {
      headers := headers[name := value];
    }

    method SecurityHeaders(secure: bool)
      modifies this
      ensures headers == WithSecurityHeaders(old(headers), secure)
    {
      SetHeader("X-Frame-Options", "DENY");
      SetHeader("X-Content-Type-Options", "nosniff");
      SetHeader("X-XSS-Protection", "1; mode=block");
      if secure {
        SetHeader("Strict-Transport-Security", HstsValue);
      }
      SetHeader("Content-Security-Policy", ContentSecurityPolicy);
    }
  }

  const SecurityHeaderNames: set<string> := {
    "X-Frame-Options", "X-Content-Type-Options", "X-XSS-Protection", "Strict-Transport-Security", "Content-Security-Policy"}

  /** The headers after `securityHeaders`, set in its order over what was there. */
  function WithSecurityHeaders(h: map<string, string>, secure: bool): map<string, string> {
    var fixed := h["X-Frame-Options" := "DENY"]["X-Content-Type-Options" := "nosniff"]["X-XSS-Protection" := "1; mode=block"];
    (if secure then fixed["Strict-Transport-Security" := HstsValue] else fixed)["Content-Security-Policy" := ContentSecurityPolicy]
  }

  /** Framing is denied, sniffing and reflected scripts are blocked on every response,
      and transport security is demanded exactly on secure connections. */
  lemma HeadersAlwaysSet(secure: bool, existing: map<string, string>)
    ensures var h := WithSecurityHeaders(existing, secure);
      && "X-Frame-Options" in h && h["X-Frame-Options"] == "DENY"
      && "X-Content-Type-Options" in h && h["X-Content-Type-Options"] == "nosniff"
      && "X-XSS-Protection" in h && h["X-XSS-Protection"] == "1; mode=block"
      && (secure ==> "Strict-Transport-Security" in h && h["Strict-Transport-Security"] == HstsValue)
      && (!secure ==> ("Strict-Transport-Security" in h <==> "Strict-Transport-Security" in existing))
      && h.Keys == existing.Keys + {"X-Frame-Options", "X-Content-Type-Options", "X-XSS-Protection", "Content-Security-Policy"}
                   + (if secure then {"Strict-Transport-Security"} else {})
      && (forall k :: k in existing && k !in SecurityHeaderNames ==> h[k] == existing[k])
  {
  }
}
