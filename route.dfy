/**
 * Request routing of the wiki: the allow-list pattern
 *   ^/(edit|save|view)/([a-zA-Z0-9]+)$
 * written out as an explicit recogniser over strings, the title it extracts,
 * and the three path prefixes the handlers are registered under.
 */
module Route {
  import opened Wrappers

  /** The three actions a wiki path can request; each is also the first path segment. */
  datatype Action = Edit | Save | View

  /** The outcome of matching a path: no match, or the two capture groups. */
  datatype RouteMatch = NoMatch | Match(action: Action, title: string)

  /** The spelling of an action in a path, the first capture group. */
  function ActionName(a: Action): string
  {
    match a
    case Edit => "edit"
    case Save => "save"
    case View => "view"
  }

  /** The character class [a-zA-Z0-9]: ASCII letters and digits only. */
  predicate IsAlnum(c: char)
  {
    ('a' <= c <= 'z') || ('A' <= c <= 'Z') || ('0' <= c <= '9')
  }

  /** A title as the pattern admits it: one or more characters of [a-zA-Z0-9]. */
  predicate IsTitle(t: string)
  {
    |t| > 0 && forall i :: 0 <= i < |t| ==> IsAlnum(t[i])
  }

  /** The one path that requests action `a` on the page titled `t`. */
  function PathOf(a: Action, t: string): string
  {
    "/" + ActionName(a) + "/" + t
  }

  /** What follows `prefix` in `s`, when `s` starts with it. */
  function StripPrefix(prefix: string, s: string): (rest: Option<string>)
    ensures rest.Some? <==> prefix <= s
    ensures rest.Some? ==> s == prefix + rest.value
  {
    if prefix <= s then Some(s[|prefix|..]) else None
  }

  /** Scans `s` left to right and accepts it when every character is in [a-zA-Z0-9]. */
  function AllAlnum(s: string): (ok: bool)
    ensures ok <==> forall i :: 0 <= i < |s| ==> IsAlnum(s[i])
  {
    |s| == 0 || (IsAlnum(s[0]) && AllAlnum(s[1..]))
  }

  /**
   * The alternation (edit|save|view) followed by '/': tries each alternative in
   * turn and returns the action matched and the text after the slash.
   */
  function ParseAction(s: string): (r: Option<(Action, string)>)
    ensures r.Some? ==> s == ActionName(r.value.0) + "/" + r.value.1
  {
    match StripPrefix("edit/", s)
    case Some(rest) => Some((Edit, rest))
    case None =>
      match StripPrefix("save/", s)
      case Some(rest) => Some((Save, rest))
      case None =>
        match StripPrefix("view/", s)
        case Some(rest) => Some((View, rest))
        case None => None
  }

  /**
   * `validPath.FindStringSubmatch(path)`, anchored at both ends: a leading '/',
   * an action and a '/', then a non-empty run of [a-zA-Z0-9] that reaches the end.
   * An accepted path is exactly the route of the action and title it yields.
   */
  function ValidPath(path: string): (m: RouteMatch)
    ensures m.Match? ==> IsTitle(m.title) && path == PathOf(m.action, m.title)
  {
    match StripPrefix("/", path)
    case None => NoMatch
    case Some(afterSlash) =>
      match ParseAction(afterSlash)
      case None => NoMatch
      case Some((action, title)) =>
        if |title| > 0 && AllAlnum(title) then Match(action, title) else NoMatch
  }

  /** Every route built from an action and a valid title is accepted, with that action and title. */
  lemma ValidPathAccepts(a: Action, t: string)
    requires IsTitle(t)
    ensures ValidPath(PathOf(a, t)) == Match(a, t)
  {
    var path := PathOf(a, t);
    var tail := ActionName(a) + "/" + t;
    assert path == "/" + tail;
    assert StripPrefix("/", path) == Some(tail);
    match a
    case Edit =>
      assert "edit/" <= tail;
      assert tail[|"edit/"|..] == t;
    case Save =>
      assert !("edit/" <= tail) by { assert tail[0] == 's'; }
      assert "save/" <= tail;
      assert tail[|"save/"|..] == t;
    case View =>
      assert !("edit/" <= tail) by { assert tail[0] == 'v'; }
      assert !("save/" <= tail) by { assert tail[0] == 'v'; }
      assert "view/" <= tail;
      assert tail[|"view/"|..] == t;
  }

  /**
   * The characterisation of the pattern: a path is accepted exactly when it is
   * `/`, an action name, `/` and a valid title, with nothing before or after.
   */
  lemma ValidPathExact(path: string)
    ensures ValidPath(path).Match? <==> exists a: Action, t: string :: IsTitle(t) && path == PathOf(a, t)
  {
    if exists a: Action, t: string :: IsTitle(t) && path == PathOf(a, t) {
      var a: Action, t: string :| IsTitle(t) && path == PathOf(a, t);
      ValidPathAccepts(a, t);
    }
  }

  /** A path that is not a route of any action and valid title is refused. */
  lemma ValidPathRejects(path: string)
    requires forall a: Action, t: string :: IsTitle(t) ==> path != PathOf(a, t)
    ensures ValidPath(path) == NoMatch
  {
    ValidPathExact(path);
  }

  /** An extracted title names a file in the current directory only: it holds no '/' and no '.'. */
  lemma TitleIsPathSafe(path: string)
    requires ValidPath(path).Match?
    ensures '/' !in ValidPath(path).title && '.' !in ValidPath(path).title
  {
    var t := ValidPath(path).title;
    forall i | 0 <= i < |t| ensures t[i] != '/' && t[i] != '.' {
      assert IsAlnum(t[i]);
    }
  }

  /**
   * The handler the server registers for a path by prefix: "/view/", "/edit/"
   * or "/save/"; None for every other path.
   */
  function Registered(path: string): (fn: Option<Action>)
    ensures fn.Some? ==> ("/" + ActionName(fn.value) + "/") <= path
    ensures "/view/" <= path ==> fn == Some(View)
    ensures "/edit/" <= path ==> fn == Some(Edit)
    ensures "/save/" <= path ==> fn == Some(Save)
  {
    if "/view/" <= path then
      assert path[1] == 'v';
      Some(View)
    else if "/edit/" <= path then
      assert path[1] == 'e';
      Some(Edit)
    else if "/save/" <= path then Some(Save)
    else None
  }

  /**
   * Every accepted path reaches the handler registered for its own action, so the
   * action a handler serves always agrees with the first capture group.
   */
  lemma RegisteredAgrees(path: string)
    requires ValidPath(path).Match?
    ensures Registered(path) == Some(ValidPath(path).action)
  {
    var m := ValidPath(path);
    assert path == ("/" + ActionName(m.action) + "/") + m.title;
  }
}
