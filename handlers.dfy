/**
 * The request handlers of the wiki: what `viewHandler`, `editHandler` and
 * `saveHandler` answer for a title given the page files, how `renderTemplate`
 * dispatches on its mode tag, and how `makeHandler` guards every handler with
 * the route pattern. Responses are values; the failures the outside world can
 * cause during one request (an unreadable file, a refused write, a template
 * that fails to execute) are given as an `Env`.
 */
module Handlers {
  import opened Wrappers
  import opened Route
  import opened Store

  const StatusOK := 200
  const StatusFound := 302
  const StatusNotFound := 404
  const StatusInternalServerError := 500

  /** The two page layouts: the "layout" template of view.html or of edit.html. */
  datatype Mode = ViewMode | EditMode

  /** What a request is answered with. */
  datatype Response =
    | NotFound                        // http.NotFound
    | Redirect(location: string)      // http.Redirect with StatusFound
    | ServerError(message: string)    // http.Error with StatusInternalServerError
    | Rendered(mode: Mode, page: Page) // a layout executed against a page
    | Blank                           // nothing written at all

  function StatusCode(r: Response): int
  {
    match r
    case NotFound => StatusNotFound
    case Redirect(_) => StatusFound
    case ServerError(_) => StatusInternalServerError
    case Rendered(_, _) => StatusOK
    case Blank => StatusOK
  }

  /**
   * The outside world during one request: the error text the operating system
   * reports when reading an existing page file, when writing one, and the error
   * text of a template that fails to execute; None where the operation succeeds.
   */
  datatype Env = Env(readFault: Option<string>, writeFault: Option<string>, renderFault: Option<string>)

  /** The mode tag `renderTemplate` is called with for each layout. */
  function Tag(mode: Mode): string
  {
    match mode
    case ViewMode => "view"
    case EditMode => "edit"
  }

  /** Executes one layout against a page; a failing execution becomes a 500 with its error text. */
  function Execute(mode: Mode, p: Page, fault: Option<string>): Response
  {
    match fault
    case None => Rendered(mode, p)
    case Some(text) => ServerError(text)
  }

  /**
   * `renderTemplate(w, tmpl, p)`: the tags "view" and "edit" execute their layout
   * against the page; every other tag writes nothing.
   */
  function RenderTemplate(tmpl: string, p: Page, fault: Option<string>): (r: Response)
    ensures r.Rendered? <==> (tmpl == "view" || tmpl == "edit") && fault.None?
    ensures r.Rendered? ==> r.page == p && Tag(r.mode) == tmpl
    ensures r.ServerError? <==> (tmpl == "view" || tmpl == "edit") && fault.Some?
    ensures r.ServerError? ==> fault == Some(r.message)
    ensures tmpl != "view" && tmpl != "edit" ==> r == Blank
  {
    if tmpl == "view" then Execute(ViewMode, p, fault)
    else if tmpl == "edit" then Execute(EditMode, p, fault)
    else Blank
  }

  /**
   * The answer of `viewHandler` for `title` when the page files are `fs`: a page
   * that cannot be loaded sends the client to its edit path; a loaded page is
   * rendered in the view layout with the stored body.
   */
  function ViewResponse(fs: FileSystem, title: string, env: Env): (r: Response)
    ensures r.Redirect? <==> !(FileName(title) in fs && env.readFault.None?)
    ensures r.Rendered? <==> FileName(title) in fs && env.readFault.None? && env.renderFault.None?
    ensures r.Redirect? ==> r.location == "/edit/" + title
    ensures r.Rendered? ==> r == Rendered(ViewMode, Page(title, fs[FileName(title)]))
    ensures r.ServerError? ==> env.renderFault == Some(r.message)
    ensures r.Redirect? || r.Rendered? || r.ServerError?
  {
    match LoadFrom(fs, title, env.readFault)
    case Err(_) => Redirect("/edit/" + title)
    case Ok(p) => RenderTemplate("view", p, env.renderFault)
  }

  /**
   * The answer of `editHandler`: the edit layout of the stored page, or of a page
   * with the title and an empty body when none can be loaded; never a redirect.
   */
  function EditResponse(fs: FileSystem, title: string, env: Env): (r: Response)
    ensures r.Rendered? <==> env.renderFault.None?
    ensures r.Rendered? ==> r.mode == EditMode && r.page.title == title
    ensures r.Rendered? ==> r.page.body == (if FileName(title) in fs && env.readFault.None? then fs[FileName(title)] else [])
    ensures !r.Rendered? ==> r == ServerError(env.renderFault.value)
  {
    var p := match LoadFrom(fs, title, env.readFault)
      case Ok(loaded) => loaded
      case Err(_) => Page(title, []);
    RenderTemplate("edit", p, env.renderFault)
  }

  /** The error `page.save` reports under `env`, if any. */
  function WriteError(env: Env): Option<IoError>
  {
    match env.writeFault
    case None => None
    case Some(text) => Some(OsError(text))
  }

  /**
   * The answer of `saveHandler` once the save has returned `err`: a failed write is
   * a 500 carrying the error text, a successful one sends the client to the view path.
   */
  function SaveResponse(title: string, err: Option<IoError>): (r: Response)
    ensures StatusCode(r) == StatusFound <==> err.None?
    ensures StatusCode(r) == StatusInternalServerError <==> err.Some?
    ensures err.None? ==> r.Redirect? && r.location == "/view/" + title
    ensures err.Some? ==> r.ServerError? && r.message == ErrorText(err.value)
  {
    match err
    case None => Redirect("/view/" + title)
    case Some(e) => ServerError(ErrorText(e))
  }

  /** The files after a request with handler `fn` on `title`: only a successful save changes them. */
  function FilesAfter(fn: Action, fs: FileSystem, title: string, body: seq<byte>, env: Env): FileSystem
  {
    if fn == Save && env.writeFault.None? then Stored(fs, Page(title, body)) else fs
  }

  /** The answer of the handler `fn` for `title`. */
  function Respond(fn: Action, fs: FileSystem, title: string, body: seq<byte>, env: Env): Response
  {
    match fn
    case View => ViewResponse(fs, title, env)
    case Edit => EditResponse(fs, title, env)
    case Save => SaveResponse(title, WriteError(env))
  }

  /**
   * Every redirect a handler builds from a valid title is itself an accepted route
   * for the same title: view sends to edit, save sends to view.
   */
  lemma RedirectsRouteBack(fn: Action, fs: FileSystem, title: string, body: seq<byte>, env: Env)
    requires IsTitle(title)
    ensures var r := Respond(fn, fs, title, body, env);
      r.Redirect? ==> ValidPath(r.location) == Match(if fn == View then Edit else View, title)
    ensures fn == Edit ==> !Respond(fn, fs, title, body, env).Redirect?
  {
    var r := Respond(fn, fs, title, body, env);
    if r.Redirect? {
      if fn == View {
        assert r.location == PathOf(Edit, title);
        ValidPathAccepts(Edit, title);
      } else {
        assert r.location == PathOf(View, title);
        ValidPathAccepts(View, title);
      }
    }
  }

  /**
   * A missing page: viewing it redirects (302) to an accepted edit route for the
   * same title, and following that redirect shows the edit form with an empty body.
   */
  lemma MissingPageFlow(fs: FileSystem, title: string, env: Env)
    requires IsTitle(title) && FileName(title) !in fs && env.renderFault.None?
    ensures StatusCode(ViewResponse(fs, title, env)) == StatusFound
    ensures ValidPath(ViewResponse(fs, title, env).location) == Match(Edit, title)
    ensures EditResponse(fs, title, env) == Rendered(EditMode, Page(title, []))
  {
    RedirectsRouteBack(View, fs, title, [], env);
  }

  /**
   * Save, follow the redirect, view: a successful save of `body` under `title`
   * redirects to the view route of `title`, which then shows exactly that body.
   */
  lemma SaveThenView(fs: FileSystem, title: string, body: seq<byte>, env: Env)
    requires IsTitle(title) && env == Env(None, None, None)
    ensures var r := Respond(Save, fs, title, body, env);
      r.Redirect? && ValidPath(r.location) == Match(View, title)
    ensures var fs' := FilesAfter(Save, fs, title, body, env);
      Respond(View, fs', title, body, env) == Rendered(ViewMode, Page(title, body))
      && Respond(Edit, fs', title, body, env) == Rendered(EditMode, Page(title, body))
  {
    RedirectsRouteBack(Save, fs, title, body, env);
    LoadAfterSave(fs, Page(title, body));
  }

  /** `viewHandler`: loads the page, redirects to the edit path when that fails, else renders it. */
  method ViewHandler(store: PageStore, title: string, env: Env) returns (resp: Response)
    ensures resp == ViewResponse(store.files, title, env)
  {
    var loaded := store.Load(title, env.readFault);
    if loaded.Err? {
      return Redirect("/edit/" + title);
    }
    resp := RenderTemplate("view", loaded.value, env.renderFault);
  }

  /** `editHandler`: loads the page, falls back to an empty page of that title, renders the edit form. */
  method EditHandler(store: PageStore, title: string, env: Env) returns (resp: Response)
    ensures resp == EditResponse(store.files, title, env)
  {
    var loaded := store.Load(title, env.readFault);
    var p: Page;
    if loaded.Err? {
      p := Page(title, []);
    } else {
      p := loaded.value;
    }
    resp := RenderTemplate("edit", p, env.renderFault);
  }

  /** `saveHandler`: saves the submitted body under the title, then answers 500 or redirects to view. */
  method SaveHandler(store: PageStore, title: string, body: seq<byte>, env: Env) returns (resp: Response)
    modifies store
    ensures store.files == FilesAfter(Save, old(store.files), title, body, env)
    ensures resp == SaveResponse(title, WriteError(env))
  {
    var p := Page(title, body);
    var err := store.Save(p, env.writeFault);
    if err.Some? {
      return ServerError(ErrorText(err.value));
    }
    resp := Redirect("/view/" + title);
  }

  /**
   * `makeHandler(fn)` applied to a request for `path`: a path the route pattern
   * refuses is answered NotFound without running the handler or touching the
   * files; an accepted one runs the handler on the second capture group.
   */
  method MakeHandler(store: PageStore, fn: Action, path: string, body: seq<byte>, env: Env) returns (resp: Response)
    modifies store
    ensures ValidPath(path).NoMatch? ==> resp == NotFound && store.files == old(store.files)
    ensures ValidPath(path).Match? ==>
      resp == Respond(fn, old(store.files), ValidPath(path).title, body, env) &&
      store.files == FilesAfter(fn, old(store.files), ValidPath(path).title, body, env)
    ensures resp.Redirect? ==>
      ValidPath(resp.location) == Match(if fn == View then Edit else View, ValidPath(path).title)
  {
    var m := ValidPath(path);
    if m.NoMatch? {
      return NotFound;
    }
    RedirectsRouteBack(fn, store.files, m.title, body, env);
    match fn
    case View => resp := ViewHandler(store, m.title, env);
    case Edit => resp := EditHandler(store, m.title, env);
    case Save => resp := SaveHandler(store, m.title, body, env);
  }
}
