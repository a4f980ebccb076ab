/** The path helpers, session helpers and role labels of frontend/config.php.
    The script directory, protocol and host the file reads from the server
    are parameters. */
module Config {
  import opened Common

  // ---------------------------------------------------------------------
  // Slash trimming

  /** `ltrim($s, '/')` */
  function LTrimSlash(s: string): (r: string)
    ensures |r| <= |s| && r == s[|s| - |r|..]
    ensures r == [] || r[0] != '/'
    ensures forall i :: 0 <= i < |s| - |r| ==> s[i] == '/'
  {
    if |s| > 0 && s[0] == '/' then LTrimSlash(s[1..]) else s
  }

  /** `rtrim($s, '/')` */
  function RTrimSlash(s: string): (r: string)
    ensures |r| <= |s| && r == s[..|r|]
    ensures r == [] || r[|r| - 1] != '/'
    ensures forall i :: |r| <= i < |s| ==> s[i] == '/'
  {
    if |s| > 0 && s[|s| - 1] == '/' then RTrimSlash(s[..|s| - 1]) else s
  }

  /** Leading slashes do not change what `ltrim` leaves. */
  lemma LTrimSlashLeading(p: string)
    ensures LTrimSlash("/" + p) == LTrimSlash(p)
  {
    assert ("/" + p)[1..] == p;
  }

  /** A text of slashes only trims to nothing. */
  lemma {:induction false} LTrimSlashAll(n: nat)
    ensures LTrimSlash(seq(n, _ => '/')) == ""
  {
    if n > 0 {
      assert seq(n, _ => '/')[1..] == seq(n - 1, _ => '/');
      LTrimSlashAll(n - 1);
    }
  }

  // ---------------------------------------------------------------------
  // baseUrl, assetUrl

  /** `baseUrl($path)` under the base path `base`. */
  function BaseUrl(base: string, path: string): (r: string)
    ensures |r| > 0
    ensures EmptyText(LTrimSlash(path)) ==>
      r == if EmptyText(RTrimSlash(base)) then "/" else RTrimSlash(base)
    ensures !EmptyText(LTrimSlash(path)) ==> r == RTrimSlash(base) + "/" + LTrimSlash(path)
  {
    var p := LTrimSlash(path);
    var b := RTrimSlash(base);
    if EmptyText(p) then (if EmptyText(b) then "/" else b)
    else b + "/" + p
  }

  /** Leading slashes on the path are irrelevant: `baseUrl("/x")` is
      `baseUrl("x")` and `baseUrl("///")` is `baseUrl("")`. */
  lemma BaseUrlLeadingSlashes(base: string, p: string)
    ensures BaseUrl(base, "/" + p) == BaseUrl(base, p)
    ensures BaseUrl(base, "///") == BaseUrl(base, "")
  {
    LTrimSlashLeading(p);
    LTrimSlashAll(3);
    assert "///" == seq(3, _ => '/');
  }

  /** The root is the base path without trailing slashes, or "/" when
      nothing is left. */
  lemma BaseUrlRoot(base: string)
    ensures BaseUrl(base, "") == "/" <==> RTrimSlash(base) == "" || RTrimSlash(base) == "/" || RTrimSlash(base) == "0"
    ensures BaseUrl(base, "") != "/" ==> BaseUrl(base, "") == RTrimSlash(base)
  {
  }

  /** Under PHP's `empty`, the path "0" counts as no path and yields the
      root. */
  lemma BaseUrlZeroPath(base: string)
    ensures BaseUrl(base, "0") == BaseUrl(base, "")
    ensures BaseUrl(base, "/0") == BaseUrl(base, "")
  {
    assert "/0"[1..] == "0";
    assert LTrimSlash("0") == "0" && LTrimSlash("/0") == "0" && LTrimSlash("") == "";
    assert EmptyText("0") && EmptyText("");
  }

  /** `assetUrl($path)` under the base path `base`. */
  function AssetUrl(base: string, path: string): (r: string)
  {
    RTrimSlash(base) + "/assets/" + LTrimSlash(path)
  }

  lemma AssetsJoin(b: string, q: string)
    ensures (b + "/") + ("assets/" + q) == (b + "/assets/") + q
  {
  }

  /** An asset URL is the base URL of the path under "assets/". */
  lemma AssetUrlIsBaseUrl(base: string, path: string)
    ensures AssetUrl(base, path) == BaseUrl(base, "assets/" + LTrimSlash(path))
  {
    var b, q := RTrimSlash(base), LTrimSlash(path);
    var p := "assets/" + q;
    assert p[0] == 'a';
    assert LTrimSlash(p) == p;
    assert !EmptyText(p) by { assert |p| >= 7; }
    assert BaseUrl(base, p) == b + "/" + p;
    AssetsJoin(b, q);
  }

  // ---------------------------------------------------------------------
  // BASE_PATH and API_BASE_URL

  predicate EndsWith(s: string, suffix: string)
  {
    |suffix| <= |s| && s[|s| - |suffix|..] == suffix
  }

  /** `preg_replace('#/(admin|teacher|student)$#', '', $scriptPath)`: one
      trailing role directory is dropped. */
  function BasePath(scriptPath: string): (r: string)
    ensures |r| <= |scriptPath| && r == scriptPath[..|r|]
  {
    if EndsWith(scriptPath, "/admin") then scriptPath[..|scriptPath| - 6]
    else if EndsWith(scriptPath, "/teacher") then scriptPath[..|scriptPath| - 8]
    else if EndsWith(scriptPath, "/student") then scriptPath[..|scriptPath| - 8]
    else scriptPath
  }

  /** `dir + suffix` ends with `suffix`, and dropping it gives `dir`. */
  lemma EndsWithAppended(dir: string, suffix: string)
    ensures EndsWith(dir + suffix, suffix)
    ensures (dir + suffix)[..|dir|] == dir
  {
    assert (dir + suffix)[|dir|..] == suffix;
  }

  /** A page in a role's directory and a page at the top share the base
      path. */
  lemma BasePathDropsRole(dir: string, role: string)
    requires role == "admin" || role == "teacher" || role == "student"
    ensures BasePath(dir + "/" + role) == dir
  {
    var suffix := "/" + role;
    var s := dir + suffix;
    assert dir + "/" + role == s;
    EndsWithAppended(dir, suffix);
    if role == "admin" {
      assert |suffix| == 6;
      assert BasePath(s) == s[..|s| - 6];
    } else if role == "teacher" {
      assert |suffix| == 8;
      NotAdmin(dir, suffix);
      assert BasePath(s) == s[..|s| - 8];
    } else {
      assert |suffix| == 8;
      NotAdmin(dir, suffix);
      NotTeacher(dir, suffix);
      assert BasePath(s) == s[..|s| - 8];
    }
  }

  lemma NotAdmin(dir: string, suffix: string)
    requires suffix == "/teacher" || suffix == "/student"
    ensures !EndsWith(dir + suffix, "/admin")
  {
    var s := dir + suffix;
    assert s[|s| - 6] == suffix[2];
  }

  lemma NotTeacher(dir: string, suffix: string)
    requires suffix == "/student"
    ensures !EndsWith(dir + suffix, "/teacher")
  {
    var s := dir + suffix;
    assert s[|s| - 7] == suffix[1];
  }

  /** A directory of any other name is kept. */
  lemma BasePathKeepsOthers(dir: string)
    requires !EndsWith(dir, "/admin") && !EndsWith(dir, "/teacher") && !EndsWith(dir, "/student")
    ensures BasePath(dir) == dir
  {
  }

  /** `str_replace($from, $to, $s)`: every occurrence, left to right. */
  function ReplaceAll(s: string, from: string, to: string): (r: string)
    requires |from| > 0
    decreases |s|
  {
    if |s| < |from| then s
    else if s[..|from|] == from then to + ReplaceAll(s[|from|..], from, to)
    else [s[0]] + ReplaceAll(s[1..], from, to)
  }

  /** `part` starts at index `i` of `s`. */
  predicate OccursAt(s: string, part: string, i: nat)
  {
    i + |part| <= |s| && s[i..i + |part|] == part
  }

  ghost predicate Occurs(s: string, part: string)
  {
    exists i: nat :: OccursAt(s, part, i)
  }

  /** An occurrence in the tail is an occurrence in the whole. */
  lemma OccursInTail(s: string, part: string, i: nat)
    requires |s| > 0 && OccursAt(s[1..], part, i)
    ensures OccursAt(s, part, i + 1)
  {
    assert s[i + 1..i + 1 + |part|] == s[1..][i..i + |part|];
  }

  /** Text without an occurrence is returned unchanged. */
  lemma {:induction false} ReplaceAbsent(s: string, from: string, to: string)
    requires |from| > 0 && !Occurs(s, from)
    ensures ReplaceAll(s, from, to) == s
    decreases |s|
  {
    if |s| >= |from| {
      assert !OccursAt(s, from, 0);
      assert s[0..|from|] == s[..|from|];
      assert !Occurs(s[1..], from) by {
        if Occurs(s[1..], from) {
          var i: nat :| OccursAt(s[1..], from, i);
          OccursInTail(s, from, i);
        }
      }
      ReplaceAbsent(s[1..], from, to);
      assert [s[0]] + s[1..] == s;
    }
  }

  /** The API path: the base path with "/frontend" replaced by "/backend". */
  function ApiPath(basePath: string): string
  {
    ReplaceAll(basePath, "/frontend", "/backend")
  }

  /** `API_BASE_URL` */
  function ApiBaseUrl(https: bool, host: string, basePath: string): string
  {
    (if https then "https" else "http") + "://" + host + ApiPath(basePath) + "/api"
  }

  /** A frontend deployed under a prefix talks to the backend under the same
      prefix. */
  lemma {:induction false} ApiPathOfFrontend(prefix: string)
    requires !Occurs(prefix + "/", "/frontend")
    ensures ApiPath(prefix + "/frontend") == prefix + "/backend"
    decreases |prefix|
  {
    var from := "/frontend";
    var s := prefix + from;
    if |prefix| == 0 {
      assert s == from;
      assert s[..|from|] == from && s[|from|..] == "";
    } else {
      var t := prefix + "/";
      if |t| >= |from| {
        assert t[0..|from|] == s[..|from|];
        assert !OccursAt(t, from, 0);
      } else {
        assert s[|prefix|] == '/' && from[|prefix|] != '/';
      }
      assert s[..|from|] != from;
      assert s[1..] == prefix[1..] + from;
      assert !Occurs(prefix[1..] + "/", from) by {
        if Occurs(prefix[1..] + "/", from) {
          var i: nat :| OccursAt(prefix[1..] + "/", from, i);
          assert (prefix + "/")[1..] == prefix[1..] + "/";
          OccursInTail(prefix + "/", from, i);
        }
      }
      ApiPathOfFrontend(prefix[1..]);
      assert [s[0]] + (prefix[1..] + "/backend") == prefix + "/backend";
    }
  }

  // ---------------------------------------------------------------------
  // Session

  /** `$_SESSION`: the logged-in user's record, the token and the flash
      messages. */
  class Session {
    var user: Option<map<string, string>>
    var values: map<string, string>

    constructor ()
      ensures user == None && values == map[]
    {
      user := None;
      values := map[];
    }

    /** `isLoggedIn` */
    predicate IsLoggedIn()
      reads this
    {
      user.Some? && "token" in values
    }

    /** `getUserRole`: the user's `user_type`, if any. */
    function UserRole(): (r: Option<string>)
      reads this
      ensures r.Some? <==> user.Some? && "user_type" in user.value
    {
      if user.Some? && "user_type" in user.value then Some(user.value["user_type"]) else None
    }

    /** `setSuccessMessage` */
    method SetSuccessMessage(message: string)
      modifies this
      ensures values == old(values)["success_message" := message] && user == old(user)
    {
      values := values["success_message" := message];
    }

    /** `setErrorMessage` */
    method SetErrorMessage(message: string)
      modifies this
      ensures values == old(values)["error_message" := message] && user == old(user)
    {
      values := values["error_message" := message];
    }

    /** Reads entry `key` and removes it. */
    method Take(key: string) returns (message: Option<string>)
      modifies this
      ensures message == if key in old(values) then Some(old(values)[key]) else None
      ensures values == old(values) - {key} && user == old(user)
    {
      message := if key in values then Some(values[key]) else None;
      values := values - {key};
    }

    /** `getSuccessMessage`: the last message set, then cleared. */
    method GetSuccessMessage() returns (message: Option<string>)
      modifies this
      ensures message == if "success_message" in old(values) then Some(old(values)["success_message"]) else None
      ensures values == old(values) - {"success_message"} && user == old(user)
    {
      message := Take("success_message");
    }

    /** `getErrorMessage`: the last message set, then cleared. */
    method GetErrorMessage() returns (message: Option<string>)
      modifies this
      ensures message == if "error_message" in old(values) then Some(old(values)["error_message"]) else None
      ensures values == old(values) - {"error_message"} && user == old(user)
    {
      message := Take("error_message");
    }
  }

  /** A flash message is shown once: setting it and reading it twice gives
      the message, then nothing, and leaves the login state as it was. */
  method FlashShownOnce(s: Session, message: string) returns (first: Option<string>, second: Option<string>)
    modifies s
    ensures first == Some(message) && second == None
    ensures s.IsLoggedIn() == old(s.IsLoggedIn())
  {
    s.SetSuccessMessage(message);
    first := s.GetSuccessMessage();
    second := s.GetSuccessMessage();
  }

  // ---------------------------------------------------------------------
  // Role labels

  /** The role a label function looks at: the one given, or the session's
      when none is given. */
  function RoleOrSession(role: Option<string>, sessionRole: Option<string>): Option<string>
  {
    if role.Some? then role else sessionRole
  }

  /** `getRoleName` */
  function RoleName(role: Option<string>, sessionRole: Option<string>): (r: string)
    ensures r in {"Amministratore", "Docente", "Studente", "Utente"}
  {
    match RoleOrSession(role, sessionRole)
    case Some("admin") => "Amministratore"
    case Some("teacher") => "Docente"
    case Some("student") => "Studente"
    case _ => "Utente"
  }

  /** `getRoleColor` */
  function RoleColor(role: Option<string>, sessionRole: Option<string>): (r: string)
    ensures r in {"#2C3E50", "#27AE60", "#E67E22", "#333333"}
  {
    match RoleOrSession(role, sessionRole)
    case Some("admin") => "#2C3E50"
    case Some("teacher") => "#27AE60"
    case Some("student") => "#E67E22"
    case _ => "#333333"
  }

  /** `getRoleSecondaryColor` */
  function RoleSecondaryColor(role: Option<string>, sessionRole: Option<string>): (r: string)
    ensures r in {"#3498DB", "#16A085", "#F39C12", "#666666"}
  {
    match RoleOrSession(role, sessionRole)
    case Some("admin") => "#3498DB"
    case Some("teacher") => "#16A085"
    case Some("student") => "#F39C12"
    case _ => "#666666"
  }

  predicate KnownRole(r: Option<string>)
  {
    r == Some("admin") || r == Some("teacher") || r == Some("student")
  }

  /** Each of the three roles has its own name and pair of colours, and
      the three names, main colours and secondary colours are pairwise
      different; any other role, and no role at all, is the generic user
      with the default colours. A role passed in wins over the session's. */
  lemma RoleLabels(role: Option<string>, other: Option<string>, sessionRole: Option<string>)
    ensures RoleName(role, sessionRole) == "Utente" <==> !KnownRole(RoleOrSession(role, sessionRole))
    ensures RoleColor(role, sessionRole) == "#333333" <==> !KnownRole(RoleOrSession(role, sessionRole))
    ensures RoleSecondaryColor(role, sessionRole) == "#666666" <==> !KnownRole(RoleOrSession(role, sessionRole))
    ensures KnownRole(RoleOrSession(role, sessionRole)) && KnownRole(RoleOrSession(other, sessionRole)) ==>
      ((RoleName(role, sessionRole) == RoleName(other, sessionRole))
       <==> (RoleOrSession(role, sessionRole) == RoleOrSession(other, sessionRole)))
    ensures KnownRole(RoleOrSession(role, sessionRole)) && KnownRole(RoleOrSession(other, sessionRole)) ==>
      ((RoleColor(role, sessionRole) == RoleColor(other, sessionRole))
       <==> (RoleOrSession(role, sessionRole) == RoleOrSession(other, sessionRole)))
    ensures KnownRole(RoleOrSession(role, sessionRole)) && KnownRole(RoleOrSession(other, sessionRole)) ==>
      ((RoleSecondaryColor(role, sessionRole) == RoleSecondaryColor(other, sessionRole))
       <==> (RoleOrSession(role, sessionRole) == RoleOrSession(other, sessionRole)))
    ensures RoleOrSession(role, sessionRole) == Some("admin") ==>
      RoleName(role, sessionRole) == "Amministratore"
      && RoleColor(role, sessionRole) == "#2C3E50" && RoleSecondaryColor(role, sessionRole) == "#3498DB"
    ensures RoleOrSession(role, sessionRole) == Some("teacher") ==>
      RoleName(role, sessionRole) == "Docente"
      && RoleColor(role, sessionRole) == "#27AE60" && RoleSecondaryColor(role, sessionRole) == "#16A085"
    ensures RoleOrSession(role, sessionRole) == Some("student") ==>
      RoleName(role, sessionRole) == "Studente"
      && RoleColor(role, sessionRole) == "#E67E22" && RoleSecondaryColor(role, sessionRole) == "#F39C12"
    ensures role.Some? ==>
      RoleName(role, sessionRole) == RoleName(role, None)
      && RoleColor(role, sessionRole) == RoleColor(role, None)
      && RoleSecondaryColor(role, sessionRole) == RoleSecondaryColor(role, None)
  {
  }
}
