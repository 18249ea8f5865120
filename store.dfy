/**
 * The page store: each page lives in a flat file named after its title with
 * the suffix ".txt", holding the page body byte for byte. The directory is a
 * map from file names to contents, owned by a `PageStore` object whose saves
 * overwrite one entry in place.
 */
module Store {
  import opened Wrappers

  newtype byte = b: int | 0 <= b < 256

  /** A wiki page: its title and its raw body. */
  datatype Page = Page(title: string, body: seq<byte>)

  /** The working directory as the wiki sees it: file name to file contents. */
  type FileSystem = map<string, seq<byte>>

  /**
   * Why reading or writing a page file failed: the file does not exist, or the
   * operating system refused the operation with the given error text.
   */
  datatype IoError = NotExist(name: string) | OsError(text: string)

  /** The error text Go reports, as `err.Error()` gives it. */
  function ErrorText(e: IoError): string
  {
    match e
    case NotExist(name) => "open " + name + ": no such file or directory"
    case OsError(text) => text
  }

  /** The file a page is stored in: its title followed by ".txt". */
  function FileName(title: string): (name: string)
    ensures |name| == |title| + 4
    ensures name[..|title|] == title && name[|title|..] == ".txt"
  {
    title + ".txt"
  }

  /** The title a page file belongs to: its name without the ".txt" suffix. */
  function TitleOf(name: string): (title: Option<string>)
    ensures title.Some? ==> FileName(title.value) == name
  {
    if |name| >= 4 && name[|name| - 4..] == ".txt" then
      assert name == name[..|name| - 4] + ".txt";
      Some(name[..|name| - 4])
    else None
  }

  /** Every title is recovered from its file name, so distinct titles never share a file. */
  lemma TitleOfFileName(title: string)
    ensures TitleOf(FileName(title)) == Some(title)
  {
    var name := FileName(title);
    assert name[|name| - 4..] == ".txt";
    assert name[..|name| - 4] == title;
  }

  /** Distinct titles are stored in distinct files. */
  lemma FileNameInjective(t1: string, t2: string)
    requires FileName(t1) == FileName(t2)
    ensures t1 == t2
  {
    TitleOfFileName(t1);
    TitleOfFileName(t2);
  }

  /**
   * `loadPage(title)` against the files `fs`, where `fault` is the error the
   * operating system reports when it cannot read an existing file. It succeeds
   * exactly when the title's file exists and is readable, and then returns the
   * page of that title whose body is the file's contents.
   */
  function LoadFrom(fs: FileSystem, title: string, fault: Option<string>): (r: Result<Page, IoError>)
    ensures r.Ok? <==> FileName(title) in fs && fault.None?
    ensures r.Ok? ==> r.value.title == title && fs[FileName(r.value.title)] == r.value.body
    ensures FileName(title) !in fs ==> r.Err? && r.error.NotExist? && TitleOf(r.error.name) == Some(title)
    ensures r.Err? && FileName(title) in fs ==> r == Err(OsError(fault.value))
  {
    var name := FileName(title);
    if name !in fs then
      TitleOfFileName(title);
      Err(NotExist(name))
    else if fault.Some? then Err(OsError(fault.value))
    else Ok(Page(title, fs[name]))
  }

  /** The files after `p.save()` succeeds: the page's file holds its body, created or overwritten. */
  function Stored(fs: FileSystem, p: Page): (fs': FileSystem)
    ensures fs'.Keys == fs.Keys + {FileName(p.title)}
    ensures fs'[FileName(p.title)] == p.body
    ensures forall name :: name in fs && name != FileName(p.title) ==> fs'[name] == fs[name]
  {
    fs[FileName(p.title) := p.body]
  }

  /** Save then load: a page saved successfully is loaded back with the same title and body. */
  lemma LoadAfterSave(fs: FileSystem, p: Page)
    ensures LoadFrom(Stored(fs, p), p.title, None) == Ok(p)
  {
  }

  /** Saving a page changes what no other title loads. */
  lemma LoadOtherAfterSave(fs: FileSystem, p: Page, title: string, fault: Option<string>)
    requires title != p.title
    ensures LoadFrom(Stored(fs, p), title, fault) == LoadFrom(fs, title, fault)
  {
    if FileName(title) == FileName(p.title) {
      FileNameInjective(title, p.title);
    }
  }

  /** Two saves of the same title: the second overwrites the first entirely. */
  lemma LastSaveWins(fs: FileSystem, p: Page, q: Page)
    requires p.title == q.title
    ensures Stored(Stored(fs, p), q) == Stored(fs, q)
  {
  }

  /** The wiki's directory of page files, updated in place by saves. */
  class PageStore {
    var files: FileSystem

    constructor (initial: FileSystem)
      ensures files == initial
    {
      files := initial;
    }

    /**
     * `page.save`: writes the body to the page's file, replacing whatever it held.
     * When the operating system refuses the write (`fault`), the error is returned
     * and the files are left as they were.
     */
    method Save(p: Page, fault: Option<string>) returns (err: Option<IoError>)
      modifies this
      ensures err.None? <==> fault.None?
      ensures fault.None? ==> files == Stored(old(files), p)
      ensures fault.Some? ==> err == Some(OsError(fault.value)) && files == old(files)
      ensures fault.None? ==> LoadFrom(files, p.title, None) == Ok(p)
      ensures forall t :: t != p.title ==> LoadFrom(files, t, None) == LoadFrom(old(files), t, None)
    {
      if fault.Some? {
        return Some(OsError(fault.value));
      }
      ghost var before := files;
      files := files[FileName(p.title) := p.body];
      err := None;
      LoadAfterSave(before, p);
      forall t | t != p.title
        ensures LoadFrom(files, t, None) == LoadFrom(before, t, None)
      {
        LoadOtherAfterSave(before, p, t, None);
      }
    }

    /** `loadPage`: reads the title's file back into a page, or reports why it could not. */
    method Load(title: string, fault: Option<string>) returns (r: Result<Page, IoError>)
      ensures r == LoadFrom(files, title, fault)
    {
      var name := FileName(title);
      if name !in files {
        return Err(NotExist(name));
      }
      if fault.Some? {
        return Err(OsError(fault.value));
      }
      r := Ok(Page(title, files[name]));
    }
  }
}
