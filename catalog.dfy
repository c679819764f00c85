/** Where the book sources come from: `Book.recog_type` and `Book.json_to_books` in app.py.
    Whether the configured path exists, and what `json.load` reads from it, are inputs. */
module Catalog {
  import opened Books

  /** What `recog_type` returns: `'url'`, the extension `os.path.splitext` gives, or `None`. */
  datatype SourceType = Url | Ext(ext: string) | NoType

  /** The extension that marks a catalog file `json_to_books` reads. */
  const JsonExt: string := ".json"

  /** `s.rfind(c)`: the index of the last `c` in `s`, or -1. */
  function RFind(s: string, c: char): (i: int)
    ensures -1 <= i < |s|
    ensures i >= 0 ==> s[i] == c
    ensures forall j :: i < j < |s| ==> s[j] != c
  {
    if s == [] then -1
    else if s[|s| - 1] == c then |s| - 1
    else RFind(s[..|s| - 1], c)
  }

  /** Some character of `s[lo..hi]` is not a dot. */
  predicate HasNonDot(s: string, lo: int, hi: int)
    requires -1 <= lo && hi <= |s|
  {
    exists j :: lo < j < hi && s[j] != '.'
  }

  /** Some character of `p` strictly after the last '/' and before index `j` is not a dot:
      the last component has a name before position `j`. */
  predicate NamedBefore(p: string, j: int)
    requires j <= |p|
  {
    HasNonDot(p, RFind(p, '/'), j)
  }

  /** `posixpath.splitext(p)`: the extension starts at the last dot of the last component,
      provided some character before it in that component is not a dot; otherwise it is
      empty. */
  function SplitExt(p: string): (r: (string, string))
    ensures r.0 + r.1 == p
    ensures r.1 != [] ==> r.1[0] == '.' && forall k :: 0 < k < |r.1| ==> r.1[k] != '.' && r.1[k] != '/'
    ensures r.1 != [] <==> exists j :: RFind(p, '/') < j < |p| && p[j] == '.' && NamedBefore(p, j)
  {
    var sep, dot := RFind(p, '/'), RFind(p, '.');
    if dot > sep && HasNonDot(p, sep, dot) then
      assert forall k :: 0 < k < |p[dot..]| ==> p[dot..][k] == p[dot + k];
      (p[..dot], p[dot..])
    else
      assert forall j :: sep < j < |p| && p[j] == '.' ==> j <= dot;
      if dot > sep then
        assert forall j :: sep < j <= dot ==> !HasNonDot(p, sep, j);
        (p, [])
      else
        (p, [])
  }

  /** `recog_type(file)`: a path starting with "http" is a URL whether or not such a file
      exists; any other path is typed by its extension if it exists, and is `None` if not. */
  function RecogType(file: string, present: bool): (t: SourceType)
    ensures t == Url <==> "http" <= file
    ensures t == NoType <==> !("http" <= file) && !present
    ensures t.Ext? ==> present && t.ext == SplitExt(file).1
  {
    if "http" <= file then Url
    else if present then Ext(SplitExt(file).1)
    else NoType
  }

  /** `json_to_books()`: the list read from the file when the type is ".json", and the
      empty list for every other type. `parsed` is what `json.load` returns. */
  function JsonToBooks(t: SourceType, parsed: seq<Book>): (books: seq<Book>)
    ensures t == Ext(JsonExt) ==> books == parsed
    ensures t != Ext(JsonExt) ==> books == []
  {
    if t == Ext(JsonExt) then parsed else []
  }

  /** The catalog the tool works on, from the configured path. */
  function LoadCatalog(file: string, present: bool, parsed: seq<Book>): (books: seq<Book>)
    ensures books == [] || books == parsed
    ensures books != [] ==> present && !("http" <= file)
  {
    JsonToBooks(RecogType(file, present), parsed)
  }

  // ---------------------------------------------------------------------------
  // Properties of the classification

  /** A file `<stem>.json`, whose stem is non-empty and does not end in '/' or '.', has
      extension ".json". */
  lemma JsonPathSplits(stem: string)
    requires stem != [] && stem[|stem| - 1] != '/' && stem[|stem| - 1] != '.'
    ensures SplitExt(stem + JsonExt) == (stem, JsonExt)
  {
    var p := stem + JsonExt;
    var n := |stem|;
    assert p[n] == '.' && p[n - 1] == stem[n - 1];
    var dot := RFind(p, '.');
    assert dot == n by {
      assert forall j :: n < j < |p| ==> p[j] != '.';
    }
    var sep := RFind(p, '/');
    assert sep < n - 1;
    assert HasNonDot(p, sep, dot);
    assert p[..n] == stem && p[n..] == JsonExt;
  }

  /** Appending to a string that does not start with "http" keeps it so, once the
      appended part starts with a character that would break the prefix. */
  lemma NotUrlAfterAppend(stem: string, tail: string)
    requires !("http" <= stem) && tail != [] && tail[0] == '.'
    ensures !("http" <= stem + tail)
  {
    var p := stem + tail;
    if |stem| >= 4 {
      assert stem[..4] == p[..4];
    } else {
      assert p[|stem|] == '.' != "http"[|stem|];
    }
  }

  /** An existing local `<stem>.json`, whose stem is non-empty, is not named like a URL and
      does not end in '/' or '.', loads its parsed contents. */
  lemma JsonFileLoads(stem: string, parsed: seq<Book>)
    requires stem != [] && stem[|stem| - 1] != '/' && stem[|stem| - 1] != '.'
    requires !("http" <= stem)
    ensures LoadCatalog(stem + JsonExt, true, parsed) == parsed
  {
    JsonPathSplits(stem);
    NotUrlAfterAppend(stem, JsonExt);
  }

  /** A hidden file `<dir>/.json` has no extension, so it loads nothing, whatever `dir` is. */
  lemma DotfileHasNoExtension(dir: string, parsed: seq<Book>)
    ensures SplitExt(dir + "/" + JsonExt).1 == []
    ensures LoadCatalog(dir + "/" + JsonExt, true, parsed) == []
  {
    var p := dir + "/" + JsonExt;
    var n := |dir|;
    assert p[n] == '/' && p[n + 1] == '.';
    assert RFind(p, '/') == n by {
      assert forall j :: n < j < |p| ==> p[j] != '/';
    }
    forall j | n < j < |p| && p[j] == '.' ensures !NamedBefore(p, j) {
      assert j == n + 1;
    }
  }

  /** The relative path ".json" has no extension either, so it loads nothing. */
  lemma BareDotfileHasNoExtension(parsed: seq<Book>)
    ensures SplitExt(JsonExt).1 == []
    ensures LoadCatalog(JsonExt, true, parsed) == []
  {
  }
}
