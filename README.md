# gowiki, modelled in Dafny

A model of a minimal Go wiki server (`wiki.go`). Pages are stored as flat files named
`<title>.txt` whose contents are the page body. Three handlers serve `/view/<title>`,
`/edit/<title>` and `/save/<title>`, and each is guarded by the route pattern
`^/(edit|save|view)/([a-zA-Z0-9]+)$`.

- `route.dfy` (module `Route`) writes the route pattern out as an explicit recogniser over
  strings. `ValidPath` returns `NoMatch` or `Match(action, title)`. The lemmas prove that a
  path is accepted exactly when it is `/`, an action name, `/` and a non-empty run of
  `[a-zA-Z0-9]`. The extracted title holds no `/` and no `.`. `Registered` gives the prefix
  each handler is registered under, and `RegisteredAgrees` proves that an accepted path
  always reaches the handler of its own action.
- `store.dfy` (module `Store`) models the working directory as a map from file name to
  bytes. It is held by a `PageStore` object: `Save` overwrites one entry in place, and
  `Load` reads it back. Both are proved against the functions `Stored` and `LoadFrom`. The
  lemmas cover four properties: a save is read back unchanged, a save leaves every other
  title unchanged, the last save wins, and distinct titles use distinct files.
- `handlers.dfy` (module `Handlers`) holds the responses as a datatype and models
  `renderTemplate`'s dispatch on its string tag. `ViewResponse`, `EditResponse` and
  `SaveResponse` give each handler's answer, and the handler methods are proved against
  them. `MakeHandler` shows that a refused path gets NotFound without running the handler.
  The lemmas prove three things:
  - every redirect a handler builds from a valid title is itself accepted, for the same title;
  - a missing page leads from view to an empty edit form;
  - a saved page is shown back by view and edit.
- `wrappers.dfy` (module `Wrappers`) defines `Option` and `Result`.

Failures caused by the outside world are parameters of each request, collected in
`Handlers.Env`:
- a read error on an existing file;
- a write error;
- a template that fails to execute.

`None` in a field means that operation succeeds. A missing page file is determined by the
map itself. The submitted form field `body` is taken as a byte sequence; an absent field
is the empty sequence. The handlers do not check the HTTP method, and neither does the
model: a request to `/save/<title>` with no body stores an empty page.

The code dispatches templates on a string tag, and any tag other than `"view"` or `"edit"`
writes nothing. A closed set of render modes would remove this silent no-op; the model
keeps the string tag because the code uses one (`Handlers.RenderTemplate`). The handlers
only ever pass the two known tags. `Handlers.Execute` runs one layout against a page and
turns a failing execution into a 500 carrying the template's error text, as `http.Error`
does. `Store.ErrorText` gives the text of an I/O error as Go's `err.Error()` reports it.
The save handler shows that text in its 500 answer. View and edit never show it, because
both recover from a failed load.

## Model

| member | source | states |
|---|---|---|
| `Route.AllAlnum` | wiki.go:93 | the scan accepts a string exactly when every character is in `[a-zA-Z0-9]` |
| `Route.ParseAction` | wiki.go:93 | a successful match of one of `edit/`, `save/`, `view/` splits the input into the action's name, `/` and the rest |
| `Route.ValidPath` | wiki.go:93 | an accepted path yields a valid title (non-empty, alphanumeric) and is exactly `/` + action + `/` + title |
| `Route.ValidPathAccepts` | wiki.go:93 | every `/` + action + `/` + valid title is accepted, with that action and that title as the captures |
| `Route.ValidPathExact` | wiki.go:93 | a path is accepted if and only if it is `/`, one of edit/save/view, `/`, and one or more `[a-zA-Z0-9]`, with nothing before or after |
| `Route.ValidPathRejects` | wiki.go:93-101 | a path not of that form is refused (`NoMatch`) |
| `Route.TitleIsPathSafe` | wiki.go:93 | the extracted title contains no `/` and no `.` |
| `Route.Registered` | wiki.go:110-112 | a path starting with `/view/`, `/edit/` or `/save/` goes to that handler, and a path given to a wiki handler starts with `/` + that handler's action + `/` |
| `Route.RegisteredAgrees` | wiki.go:110-112 | every accepted path is routed to the handler of its first capture group |
| `Store.FileName` | wiki.go:20 | the page file is the title followed by the four characters `.txt` |
| `Store.TitleOf` | wiki.go:20 | the inverse of the file-name rule, used only in contracts and proofs (the source never turns a file name back into a title): a title recovered from a file name maps back to that file name |
| `Store.TitleOfFileName` | wiki.go:20 | the title is recovered from its file name |
| `Store.FileNameInjective` | wiki.go:20 | distinct titles are stored in distinct files |
| `Store.LoadFrom` | wiki.go:24-31 | loading succeeds exactly when the file exists and is readable; the page then has the requested title and the file's bytes; a missing file gives a not-exist error naming that title's file |
| `Store.Stored` | wiki.go:19-22 | after a save the title's file exists and holds the body; every other file is unchanged |
| `Store.LoadAfterSave` | wiki.go:19-31 | loading a page just saved returns exactly that title and body |
| `Store.LoadOtherAfterSave` | wiki.go:19-31 | saving one page does not change what any other title loads |
| `Store.LastSaveWins` | wiki.go:19-22 | a second save of the same title replaces the first entirely |
| `Store.PageStore.Save` | wiki.go:19-22 | a successful save overwrites only the title's file and is read back as the same page; a refused write returns the error and leaves all files unchanged |
| `Store.PageStore.Load` | wiki.go:24-31 | reading the store agrees with `LoadFrom` on the current files |
| `Handlers.RenderTemplate` | wiki.go:65-79 | only the tags "view" and "edit" produce output, namely the page rendered in that layout or a 500 with the template's error; any other tag writes nothing |
| `Handlers.ViewResponse` | wiki.go:33-40 | view redirects to `/edit/<title>` exactly when the page cannot be loaded; otherwise it renders the stored page with that title exactly when the template does not fail, and answers a 500 with the template's error text when it does |
| `Handlers.EditResponse` | wiki.go:42-48 | edit never redirects; it renders the edit layout for the title, with the stored body or an empty body when the page cannot be loaded |
| `Handlers.SaveResponse` | wiki.go:50-59 | save answers 500 with the error text exactly when the write failed, and otherwise 302 to `/view/<title>` |
| `Handlers.RedirectsRouteBack` | wiki.go:36 | a redirect built from a valid title is an accepted route for the same title (view goes to edit, save goes to view); edit never redirects |
| `Handlers.MissingPageFlow` | wiki.go:33-48 | viewing a missing page gives 302 to an accepted edit route for that title, which renders an empty page of that title |
| `Handlers.SaveThenView` | wiki.go:33-59 | after a successful save the redirect leads to the view route, and both view and edit then show the saved body |
| `Handlers.ViewHandler` | wiki.go:33-40 | the handler's answer is `ViewResponse` of the current files |
| `Handlers.EditHandler` | wiki.go:42-48 | the handler's answer is `EditResponse` of the current files |
| `Handlers.SaveHandler` | wiki.go:50-59 | the handler stores the body under the title only when the write succeeds, and answers `SaveResponse` |
| `Handlers.MakeHandler` | wiki.go:95-104 | a refused path gets NotFound, the handler does not run and the files are unchanged; an accepted path runs the handler on the second capture group; any redirect it answers routes to the same title |

## Left out

- The HTTP server itself is not modelled: `http.ListenAndServe`, request and response
  objects, and Go's `ServeMux` (wiki.go:106-115). That covers path cleaning with 301
  redirects, the redirect from `/view` to `/view/`, and the 404 for paths under no
  registered prefix. Only the three registrations' prefixes are modelled (`Route.Registered`).
- The static file server under `/node_modules/` (wiki.go:107-108) wraps a library and is
  not modelled.
- Parsing and executing templates (wiki.go:62-63, 68, 74) depend on HTML files outside the
  code. A rendered page is the value `Rendered(mode, page)`. A failing execution is a 500
  carrying the error text; the case of output written before the failure is the
  `Handlers.RenderTemplate` line below.
- Response bodies are not modelled byte for byte. This covers the newline `http.Error`
  appends, the short HTML body `http.Redirect` writes, and the text of the 404 page.
  `http.Redirect` cleans the target path; that is the identity on the `/edit/<title>` and
  `/view/<title>` targets built from valid titles, so it is not modelled.
- File permissions (`0600`, wiki.go:21) are not modelled. The causes of read and write
  errors are not modelled either: a read or write error is an input text. A missing file
  produces Go's not-exist error text for that file name.
- Handlers.RenderTemplate: a render error stands only for a template failure before any
  output. When `ExecuteTemplate` fails after writing part of the page, the status is
  already 200. The 500 from `http.Error` is then ignored, and the error text is appended to
  the partial page. The model does not capture that case.
- Store.FileNameInjective, Store.LoadOtherAfterSave: the model assumes a case-sensitive
  directory, where file names are compared exactly. On a case-insensitive file system,
  saving `Hello` overwrites `hello.txt`, and loading `hello` then returns `Hello`'s body.
- Store.PageStore.Save: a refused write leaves the files unchanged. A write that fails
  after the file was opened can leave the file truncated, and that is not modelled.
- Concurrent requests, and two saves to the same title racing on the file system, are not
  modelled; the model is sequential.
- Decoding the form (`r.FormValue("body")`, wiki.go:51) is not modelled; the body arrives
  as bytes. Decoding the URL path is not modelled either; the path arrives as a string.
