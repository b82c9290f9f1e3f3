/**
 * What one connection receives: the bytes the client handler writes for a
 * given request line, configured root directory and file tree. These
 * functions specify the methods of `Server`; the lemmas state what the
 * handler promises for each kind of request.
 */
module Exchange {
  import opened Wrappers
  import opened Wire
  import opened JavaText
  import opened FileSystem
  import opened Responses

  /**
   * What the handler consults besides the request: the file tree,
   * `Files.probeContentType` (by pathname) and the `yyyy-MM-dd HH:mm:ss`
   * formatter in the server's time zone (by modification time).
   */
  datatype Env = Env(fs: FileTree, probe: string -> Option<string>, formatDate: int -> string)

  const INDEX_FILE_NAME := "index.html"

  predicate IsFileAt(env: Env, p: string) {
    p in env.fs && env.fs[p].RegularFile?
  }

  /**
   * `sendFile` for the file at `p`: the header block, then the file's bytes.
   * Anything but a regular file cannot be opened as a `FileInputStream`; that
   * exception ends the request before a byte is written.
   */
  function FileResponse(env: Env, p: string): seq<byte> {
    if IsFileAt(env, p) then
      Encode(FileHead(ContentType(env.probe(p)), Name(p), Length(env.fs, p))) + env.fs[p].data
    else []
  }

  /** The listing entry of the child `entry` of directory `dir`. */
  function EntryItem(env: Env, dir: string, entry: string): string {
    var child := Resolve(dir, entry);
    ListingItem(Name(child), Length(env.fs, child), env.formatDate(LastModified(env.fs, child)))
  }

  /** The item of each entry as a function of the entry. */
  function ItemOf(env: Env, dir: string): string -> string {
    entry => EntryItem(env, dir, entry)
  }

  /** The items of `entries`, one after another in enumeration order. */
  function Joined(entries: seq<string>, item: string -> string): string {
    if entries == [] then ""
    else Joined(entries[..|entries| - 1], item) + item(entries[|entries| - 1])
  }

  function ListingItems(env: Env, dir: string, entries: seq<string>): string {
    Joined(entries, ItemOf(env, dir))
  }

  /** The HTML page `sendDirectoryListing` builds. */
  function ListingPage(env: Env, dir: string, entries: seq<string>): string {
    LISTING_OPEN + ListingItems(env, dir, entries) + LISTING_CLOSE
  }

  /** `sendDirectoryListing`: the typed header block with its "OK", then the page. */
  function ListingResponse(env: Env, dir: string, entries: seq<string>): seq<byte> {
    Encode(LISTING_HEAD) + Encode(ListingPage(env, dir, entries))
  }

  /** `handleGetRequest`: resolve `root + path`, then serve a file, an index file, a listing or a 404. */
  function GetResponse(env: Env, root: string, path: string): seq<byte> {
    var p := Normalize(root + path);
    if p !in env.fs then Encode(NOT_FOUND)
    else match env.fs[p]
      case Directory(entries, _, _) =>
        var index := Resolve(p, INDEX_FILE_NAME);
        if index in env.fs then FileResponse(env, index) else ListingResponse(env, p, entries)
      case RegularFile(_, _) => FileResponse(env, p)
  }

  /** `ClientHandler.run`: everything written to the connection for the characters the client sent. */
  function ConnectionOutput(env: Env, root: string, input: string): seq<byte> {
    match ReadLine(input)
    case None => []
    case Some(request) =>
      var parts := Split(request);
      if |parts| < 2 then []
      else if EqualsIgnoreCase(parts[0], "GET") then GetResponse(env, root, parts[1])
      else Encode(NOT_IMPLEMENTED)
  }

  // ---------------------------------------------------------------------
  // Request line and dispatch

  /** No line, or a line with fewer than two tokens, gets no response at all. */
  lemma SilentWithoutPath(env: Env, root: string, input: string)
    requires ReadLine(input).None? || |Split(ReadLine(input).value)| < 2
    ensures ConnectionOutput(env, root, input) == []
  {
  }

  /**
   * A request line `method SP path [SP ...]`: any casing of GET is served
   * from `path`, which may be empty when a later token is not; every other
   * method gets exactly the 501 text.
   */
  lemma Dispatch(env: Env, root: string, input: string, verb: string, path: string, rest: string)
    requires ReadLine(input) == Some(verb + " " + path + rest)
    requires ' ' !in verb && ' ' !in path
    requires rest == [] || rest[0] == ' '
    requires path != "" || exists i :: 0 <= i < |rest| && rest[i] != ' '
    ensures EqualsIgnoreCase(verb, "GET") ==> ConnectionOutput(env, root, input) == GetResponse(env, root, path)
    ensures !EqualsIgnoreCase(verb, "GET") ==> ConnectionOutput(env, root, input) == Encode(NOT_IMPLEMENTED)
  {
    RequestLineTokens(verb, path, rest);
  }

  // ---------------------------------------------------------------------
  // Resolution

  /** A path with nothing behind it gets exactly the 404 text, with no Content-Type or Content-Length. */
  lemma MissingIsNotFound(env: Env, root: string, path: string)
    requires Normalize(root + path) !in env.fs
    ensures GetResponse(env, root, path) == Encode(NOT_FOUND)
  {
  }

  /** A regular file is sent as a file response. */
  lemma RegularFileIsSent(env: Env, root: string, path: string)
    requires IsFileAt(env, Normalize(root + path))
    ensures GetResponse(env, root, path) == FileResponse(env, Normalize(root + path))
  {
  }

  /**
   * A directory holding a regular `index.html` answers with that file, and
   * the answer is the one a request naming `path + "/index.html"` gets.
   */
  lemma {:induction false} DirectoryServesIndex(env: Env, root: string, path: string)
    requires var p := Normalize(root + path);
      p in env.fs && env.fs[p].Directory? && IsFileAt(env, Resolve(p, INDEX_FILE_NAME))
    ensures var index := Resolve(Normalize(root + path), INDEX_FILE_NAME);
      GetResponse(env, root, path) == FileResponse(env, index) &&
      GetResponse(env, root, path) == GetResponse(env, root, path + "/" + INDEX_FILE_NAME)
  {
    var index := Resolve(Normalize(root + path), INDEX_FILE_NAME);
    var request := path + "/" + INDEX_FILE_NAME;
    NormalizeChild(root + path, INDEX_FILE_NAME);
    AppendAssociates(root, path, "/");
    AppendAssociates(root, path + "/", INDEX_FILE_NAME);
    assert Normalize(root + request) == index;
  }

  /**
   * An `index.html` that is itself a directory cannot be opened for reading:
   * the request ends with nothing written.
   */
  lemma IndexDirectoryGivesNothing(env: Env, root: string, path: string)
    requires var p := Normalize(root + path);
      var index := Resolve(p, INDEX_FILE_NAME);
      p in env.fs && env.fs[p].Directory? && index in env.fs && env.fs[index].Directory?
    ensures GetResponse(env, root, path) == []
  {
  }

  /** A directory without `index.html` is answered with the listing of its own entries. */
  lemma DirectoryWithoutIndexIsListed(env: Env, root: string, path: string)
    requires var p := Normalize(root + path);
      p in env.fs && env.fs[p].Directory? && Resolve(p, INDEX_FILE_NAME) !in env.fs
    ensures var p := Normalize(root + path);
      GetResponse(env, root, path) == ListingResponse(env, p, env.fs[p].entries)
  {
  }

  // ---------------------------------------------------------------------
  // File responses

  /**
   * A file response is its header block followed by exactly the file's
   * bytes: a client reading up to the first blank line gets the header
   * block, and the Content-Length it declares is the number of bytes after
   * it.
   */
  lemma FileResponseFraming(env: Env, p: string)
    requires IsFileAt(env, p)
    requires var mime := ContentType(env.probe(p)); '\r' !in mime && '\n' !in mime
    requires '\r' !in Name(p) && '\n' !in Name(p)
    ensures var data := env.fs[p].data;
      var lines := FileHeadLines(ContentType(env.probe(p)), Name(p), |data|);
      var head := Encode(HeaderBlock(lines));
      var response := FileResponse(env, p);
      response == head + data &&
      FindBlankLine(response) == Some(|head| - 4) &&
      response[|head|..] == data &&
      lines[3] == "Content-Length: " + NatToString(|response| - |head|) &&
      DigitsValue(NatToString(|response| - |head|)) == |data|
  {
    var data := env.fs[p].data;
    var mime := ContentType(env.probe(p));
    var name := Name(p);
    FileHeadLinesWellFormed(mime, name, |data|);
    var lines := FileHeadLines(mime, name, |data|);
    HeaderBlockFraming(lines, data);
    DigitsValueOfNatToString(|data|);
  }

  /**
   * The Content-Type of a file response is the probed type, or
   * `application/octet-stream` when the probe finds none; the download is
   * offered under the file's own name.
   */
  lemma FileResponseHeaders(env: Env, p: string)
    ensures var lines := FileHeadLines(ContentType(env.probe(p)), Name(p), Length(env.fs, p));
      lines[1] == "Content-Type: " + (if env.probe(p).Some? then env.probe(p).value else "application/octet-stream") &&
      lines[2] == "Content-Disposition: attachment; filename=\"" + Name(p) + "\""
  {
  }

  /** What `sendFile` writes for a regular file: its header block, then its bytes. */
  lemma FileResponseOfFile(env: Env, p: string)
    requires IsFileAt(env, p)
    ensures FileResponse(env, p) ==
      Encode(FileHead(ContentType(env.probe(p)), Name(p), |env.fs[p].data|)) + env.fs[p].data
  {
  }

  /** The index file is offered for download under the name `index.html`. */
  lemma IndexFileName(dir: string)
    ensures Name(Resolve(dir, INDEX_FILE_NAME)) == "index.html"
  {
    NameOfResolve(dir, INDEX_FILE_NAME);
  }

  // ---------------------------------------------------------------------
  // Listings

  /** The items of two runs of entries, one after the other. */
  lemma {:induction false} JoinedAppend(a: seq<string>, b: seq<string>, item: string -> string)
    ensures Joined(a + b, item) == Joined(a, item) + Joined(b, item)
    decreases |b|
  {
    if b == [] {
      assert a + b == a;
    } else {
      var b0 := b[..|b| - 1];
      JoinedAppend(a, b0, item);
      assert (a + b)[..|a + b| - 1] == a + b0;
    }
  }

  /** Extending the entries by one adds that entry's item at the end. */
  lemma ListingItemsSnoc(env: Env, dir: string, entries: seq<string>, i: nat)
    requires i < |entries|
    ensures ListingItems(env, dir, entries[..i + 1]) ==
      ListingItems(env, dir, entries[..i]) + EntryItem(env, dir, entries[i])
  {
    assert entries[..i + 1][..i] == entries[..i];
  }

  /** No entries, no items. */
  lemma ListingItemsNone(env: Env, dir: string, entries: seq<string>)
    ensures ListingItems(env, dir, entries[..0]) == ""
  {
    assert entries[..0] == [];
  }

  /** A text ending in the items of the first `i` entries, extended by the next entry's item. */
  lemma ListingItemsStep(env: Env, dir: string, entries: seq<string>, i: nat, prefix: string, text: string)
    requires i < |entries| && text == prefix + ListingItems(env, dir, entries[..i])
    ensures text + EntryItem(env, dir, entries[i]) == prefix + ListingItems(env, dir, entries[..i + 1])
  {
    ListingItemsSnoc(env, dir, entries, i);
    AppendAssociates(prefix, ListingItems(env, dir, entries[..i]), EntryItem(env, dir, entries[i]));
  }

  /**
   * The listing holds exactly one item per entry, in enumeration order: the
   * `i`-th entry's item comes after the items of the entries before it and
   * before the items of those after it.
   */
  lemma ListingItemAt(env: Env, dir: string, entries: seq<string>, i: nat)
    requires i < |entries|
    ensures ListingItems(env, dir, entries) ==
      ListingItems(env, dir, entries[..i]) + EntryItem(env, dir, entries[i]) +
      ListingItems(env, dir, entries[i + 1..])
  {
    JoinedAt(entries, ItemOf(env, dir), i);
  }

  lemma JoinedAt(entries: seq<string>, item: string -> string, i: nat)
    requires i < |entries|
    ensures Joined(entries, item) == Joined(entries[..i], item) + item(entries[i]) + Joined(entries[i + 1..], item)
  {
    var rest := entries[i..];
    assert entries == entries[..i] + rest;
    JoinedAppend(entries[..i], rest, item);
    JoinedCons(rest, item);
    assert rest[0] == entries[i] && rest[1..] == entries[i + 1..];
    AppendAssociates(Joined(entries[..i], item), item(entries[i]), Joined(entries[i + 1..], item));
  }

  /** The first entry's item comes before the items of the others. */
  lemma JoinedCons(entries: seq<string>, item: string -> string)
    requires entries != []
    ensures Joined(entries, item) == item(entries[0]) + Joined(entries[1..], item)
  {
    assert entries == [entries[0]] + entries[1..];
    JoinedAppend([entries[0]], entries[1..], item);
    assert [entries[0]][..0] == [];
  }

  /** Each item links to the entry by its own name and shows that entry's size and formatted modification time. */
  lemma EntryItemShowsEntry(env: Env, dir: string, entry: string)
    requires entry != "" && '/' !in entry
    ensures var child := Resolve(dir, entry);
      EntryItem(env, dir, entry) ==
        ListingItem(entry, Length(env.fs, child), env.formatDate(LastModified(env.fs, child)))
  {
    NameOfResolve(dir, entry);
  }

  /**
   * The listing as sent: a header block whose status line carries
   * "HTTP/1.1 " twice, and after its blank line a body that starts with the
   * text "OK", then the page opening, one item per entry, and the closing.
   */
  lemma ListingResponseFraming(env: Env, dir: string, entries: seq<string>)
    ensures var head := Encode(HeaderBlock(TypedHeadLines("HTTP/1.1 200 OK", "text/html")));
      var response := ListingResponse(env, dir, entries);
      response == head + (Encode("OK") + Encode(ListingPage(env, dir, entries))) &&
      FindBlankLine(response) == Some(|head| - 4)
  {
    ListingHeadLines();
    TypedResponseFraming("HTTP/1.1 200 OK", "OK", "text/html", Encode(ListingPage(env, dir, entries)));
  }
}
