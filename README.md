# SimpleWebServerGPT, modelled in Dafny

SimpleWebServerGPT is a small Java HTTP server. It reads `port` and
`rootDirectory` from `config.properties`, using 8080 and "" by default. For
each connection it reads one request line and splits it on single spaces.
It answers any casing of `GET` from the file system, and every other method
with a fixed 501 text.

For a GET, the file `rootDirectory + path` is looked up:

- a regular file is sent as a download: a five-line header block, then the
  file copied through a 1024-byte buffer;
- a directory is served by its `index.html` if it has one;
- otherwise the directory is served as an HTML listing of its entries;
- a missing file gets a fixed 404 text.

This project models that per-connection pipeline and proves what each
request receives.

- `Configuration` covers `loadConfiguration`: the defaults, and the
  `NumberFormatException` of a malformed port, which escapes the
  constructor.
- `Wire` covers `String.getBytes()` with US-ASCII, `String.valueOf`, and
  `Integer.parseInt`.
- `JavaText` covers `readLine`, `split(" ")`, which drops trailing empty
  tokens, and `equalsIgnoreCase`.
- `FileSystem` covers `java.io.File` on Unix: the normalized pathname,
  `new File(parent, child)`, `getName`, `length` and `lastModified`. The
  file tree is a map from normal pathnames to files and directories.
- `Responses` covers the texts the server writes, as header blocks. It also
  defines `FindBlankLine`, a client that reads up to the first CR LF CR LF.
  It proves that the 501, 404 and listing responses are framed correctly
  for that client. File responses are proved framed correctly when the MIME
  type and the file name hold no CR or LF; the model does not promise
  anything about framing when either does.
- `Exchange` covers the bytes a connection receives, as functions, with
  lemmas for each kind of request.
- `Server` holds the imperative code. `OutputStream`, `FileInputStream`
  and the `WebServer` class have methods that run the source's statements:
  the copy loop, the `StringBuilder` loop of the listing, and the dispatch.
  Each method is proved to write exactly what `Exchange` specifies.

The model keeps two quirks of the source, because they are what the server
sends:

- The listing goes through the `sendResponse` overload that prefixes
  "HTTP/1.1 " itself. Its status line is therefore
  `HTTP/1.1 HTTP/1.1 200 OK`.
- The listing's body starts with the status message `OK`, followed directly
  by the HTML page.

`rootDirectory + path` is resolved as given. A path containing `..` reaches
outside the root; this is how the source behaves, and the model does not
restrict it.

The environment of a request is a parameter (`Exchange.Env`). It holds:

- the file tree;
- `Files.probeContentType`, as a function from pathname to an optional
  MIME type;
- the `yyyy-MM-dd HH:mm:ss` date formatter, as a function from modification
  time to text.

## Model

| member | source | states |
|---|---|---|
| Configuration.Configure | SimpleWebServerGPT/src/SimpleWebServerGPT.java:23-41 | the values `loadConfiguration` assigns, or none when `parseInt` throws; characterised by DefaultsWithoutFile, DefaultsForMissingKeys, KeysDefaultIndependently, DecimalPortIsUsed and MalformedPortAborts |
| Configuration.GetProperty | SimpleWebServerGPT/src/SimpleWebServerGPT.java:29-30 | `getProperty(key, default)`: the value under the key, or the default |
| Wire.Encode | SimpleWebServerGPT/src/SimpleWebServerGPT.java:141 | `getBytes` under US-ASCII: one byte per character, '?' for the unmappable; characterised by EncodeAppend, DecodeEncode and EncodeCrLf |
| Wire.DigitsValue | SimpleWebServerGPT/src/SimpleWebServerGPT.java:29 | the number a string of decimal digits denotes; used by ParseInt and related to NatToString by DigitsValueOfNatToString |
| JavaText.Pieces | SimpleWebServerGPT/src/SimpleWebServerGPT.java:72 | the pieces between single spaces, empty ones included, none holding a space; characterised by JoinPieces and PiecesOfJoin |
| JavaText.DropTrailingEmpty | SimpleWebServerGPT/src/SimpleWebServerGPT.java:72 | the pieces without their trailing empty strings: a prefix ending in a non-empty piece, with only empty pieces removed |
| JavaText.Split | SimpleWebServerGPT/src/SimpleWebServerGPT.java:72 | `split(" ")`: the whole line when it has no space, otherwise its pieces with trailing empty ones removed; characterised by RequestLineTokens, EmptyPathTokens, TrailingSpaceDropped and DoubleSpaceGivesEmptyPath |
| JavaText.EqualsIgnoreCase | SimpleWebServerGPT/src/SimpleWebServerGPT.java:77 | `equalsIgnoreCase`: equal lengths and the same letters up to ASCII case; characterised by GetSpellings |
| FileSystem.Resolve | SimpleWebServerGPT/src/SimpleWebServerGPT.java:99 | `new File(parent, child)`: the child pathname, without a doubled '/' under the root; characterised by NormalizeChild and NameOfResolve |
| FileSystem.Length | SimpleWebServerGPT/src/SimpleWebServerGPT.java:116 | `file.length()`: a regular file's byte count, a directory's reported size, 0 when nothing is there |
| FileSystem.LastModified | SimpleWebServerGPT/src/SimpleWebServerGPT.java:173 | `file.lastModified()`: 0 when nothing is there |
| Exchange.ConnectionOutput | SimpleWebServerGPT/src/SimpleWebServerGPT.java:65-83 | the bytes `run` writes for the client's input: nothing without a request line or path token, the GET response for any casing of GET, the 501 text otherwise; characterised by SilentWithoutPath and Dispatch |
| Exchange.GetResponse | SimpleWebServerGPT/src/SimpleWebServerGPT.java:95-111 | `handleGetRequest`: the 404 text, the file, the index file or the listing; characterised by MissingIsNotFound, RegularFileIsSent, DirectoryServesIndex, IndexDirectoryGivesNothing and DirectoryWithoutIndexIsListed |
| Exchange.FileResponse | SimpleWebServerGPT/src/SimpleWebServerGPT.java:113-158 | `sendFile`: nothing for anything but a regular file, otherwise the header block then the file; characterised by FileResponseOfFile, FileResponseFraming and FileResponseHeaders |
| Exchange.EntryItem | SimpleWebServerGPT/src/SimpleWebServerGPT.java:172-178 | the listing item of one directory entry; characterised by EntryItemShowsEntry |
| Exchange.Joined | SimpleWebServerGPT/src/SimpleWebServerGPT.java:171-179 | the items of the entries, one after another in order; characterised by JoinedAppend, JoinedCons and JoinedAt |
| Exchange.ListingItems | SimpleWebServerGPT/src/SimpleWebServerGPT.java:171-179 | the items of a directory's entries in enumeration order; characterised by ListingItemsNone, ListingItemsSnoc and ListingItemAt |
| Exchange.ListingPage | SimpleWebServerGPT/src/SimpleWebServerGPT.java:166-183 | the page `sendDirectoryListing` builds: the opening, the items, the closing; BuildListing is proved to build exactly this |
| Exchange.ListingResponse | SimpleWebServerGPT/src/SimpleWebServerGPT.java:184-185 | the typed header block with "OK", then the page; characterised by ListingResponseFraming |
| Responses.Lines | SimpleWebServerGPT/src/SimpleWebServerGPT.java:133-138 | header lines, each followed by CR LF; characterised by LinesOfTwo, LinesOfThree, LinesOfFive and LinesNoEarlyBlank |
| Responses.HeaderBlock | SimpleWebServerGPT/src/SimpleWebServerGPT.java:133-138 | the lines of a header block, then the blank line ending it; characterised by HeaderBlockFraming |
| Responses.StatusResponse | SimpleWebServerGPT/src/SimpleWebServerGPT.java:188-195 | the two-line status response and its message; characterised by StatusResponseText and StatusResponseFraming |
| Responses.TypedResponse | SimpleWebServerGPT/src/SimpleWebServerGPT.java:197-205 | the three-line typed response, "HTTP/1.1 " prefixed, and its message; characterised by TypedResponseText and TypedResponseFraming |
| Responses.FileHead | SimpleWebServerGPT/src/SimpleWebServerGPT.java:133-138 | the five-line header block of a file response; characterised by FileHeadText and FileHeadLinesWellFormed |
| Responses.ContentType | SimpleWebServerGPT/src/SimpleWebServerGPT.java:125-130 | the probed MIME type, or application/octet-stream when there is none; characterised by FileResponseHeaders |
| Responses.ListingItem | SimpleWebServerGPT/src/SimpleWebServerGPT.java:176-178 | one listing entry: a link to the name, the size and the modification time; characterised by EntryItemShowsEntry |
| Configuration.DefaultsWithoutFile | SimpleWebServerGPT/src/SimpleWebServerGPT.java:26-40 | with no configuration resource, or one that cannot be read, the server uses port 8080 and root "" |
| Configuration.DefaultsForMissingKeys | SimpleWebServerGPT/src/SimpleWebServerGPT.java:29-30 | a loaded file naming neither key yields port 8080 and root "" |
| Configuration.KeysDefaultIndependently | SimpleWebServerGPT/src/SimpleWebServerGPT.java:29-30 | whether `rootDirectory` is present changes neither startup success nor the port; a missing `port` gives 8080; the root is the file's value or "" |
| Configuration.DecimalPortIsUsed | SimpleWebServerGPT/src/SimpleWebServerGPT.java:29 | a port written in decimal within the int range becomes the server's port |
| Configuration.MalformedPortAborts | SimpleWebServerGPT/src/SimpleWebServerGPT.java:29 | startup fails exactly when the file names a port that `parseInt` rejects, and so for any port text that does not start with a digit or sign; there is no fallback to defaults |
| Server.WebServer.LoadConfiguration | SimpleWebServerGPT/src/SimpleWebServerGPT.java:23-41 | the method throws exactly when `Configure` has no value; otherwise both fields take the configured values; when it throws, neither field is assigned |
| Server.NewServer | SimpleWebServerGPT/src/SimpleWebServerGPT.java:19-21 | the constructor yields a server exactly when configuration succeeds, and the server carries the configured port and root |
| Wire.ParseIntOfDigits | SimpleWebServerGPT/src/SimpleWebServerGPT.java:29 | one or more digits, bare or after '+', parse to their value, and after '-' to its negation, exactly when that value fits in an int; otherwise they are rejected |
| Wire.ParseIntOnlyOfDigits | SimpleWebServerGPT/src/SimpleWebServerGPT.java:29 | every text that parses is an optional sign followed by at least one digit, and its value is that of the digits, negated after '-' |
| Wire.ParseIntOfNatToString | SimpleWebServerGPT/src/SimpleWebServerGPT.java:29 | `parseInt` reads back every non-negative int from its own decimal text |
| Wire.DigitsValueOfNatToString | SimpleWebServerGPT/src/SimpleWebServerGPT.java:136 | the decimal text written as Content-Length denotes the number it was made from |
| Wire.NatToString | SimpleWebServerGPT/src/SimpleWebServerGPT.java:136 | `String.valueOf` of a size gives at least one decimal digit, with no leading zero |
| Wire.ParseInt | SimpleWebServerGPT/src/SimpleWebServerGPT.java:29 | a parsed port lies within the 32-bit int range, and its text starts with a digit or a sign |
| Wire.DecodeEncode | SimpleWebServerGPT/src/SimpleWebServerGPT.java:141 | ASCII header text put on the wire with `getBytes` reads back unchanged |
| Wire.EncodeAppend | SimpleWebServerGPT/src/SimpleWebServerGPT.java:203-204 | encoding a concatenation gives the concatenated encodings, so writing headers then message equals writing the whole response |
| JavaText.LineOf | SimpleWebServerGPT/src/SimpleWebServerGPT.java:70 | the request line is a prefix of the input, holds no line break, and stops at the first line break or at the end |
| JavaText.ReadLine | SimpleWebServerGPT/src/SimpleWebServerGPT.java:70-71 | `readLine` returns null exactly when the input is empty, and otherwise the first line |
| JavaText.JoinPieces | SimpleWebServerGPT/src/SimpleWebServerGPT.java:72 | the pieces between single spaces, rejoined with single spaces, give back the request line |
| JavaText.PiecesOfJoin | SimpleWebServerGPT/src/SimpleWebServerGPT.java:72 | splitting the join of space-free pieces gives exactly those pieces |
| JavaText.DropTrailingEmptyKeeps | SimpleWebServerGPT/src/SimpleWebServerGPT.java:72 | `split` removes only trailing empty tokens, never one up to a non-empty token |
| JavaText.RequestLineTokens | SimpleWebServerGPT/src/SimpleWebServerGPT.java:72-75 | a line `method SP path [SP ...]` gives at least two tokens, the method first and the path second; this includes an empty path when a later token is not empty |
| JavaText.EmptyPathTokens | SimpleWebServerGPT/src/SimpleWebServerGPT.java:72-75 | two spaces after the method, followed by a non-empty token, give the empty string as the path token |
| JavaText.EmptyPathPieces | SimpleWebServerGPT/src/SimpleWebServerGPT.java:72 | splitting `method SP SP tail` gives the method, an empty piece, then the pieces of the tail |
| JavaText.PiecesHasNonEmpty | SimpleWebServerGPT/src/SimpleWebServerGPT.java:72 | a text with any character other than a space has a non-empty piece, so trimming stops at or after it |
| JavaText.TrailingSpaceDropped | SimpleWebServerGPT/src/SimpleWebServerGPT.java:72-73 | "GET " splits into the single token "GET", so it gets no response |
| JavaText.DoubleSpaceGivesEmptyPath | SimpleWebServerGPT/src/SimpleWebServerGPT.java:72-75 | two spaces in a row produce an empty path token |
| JavaText.GetSpellings | SimpleWebServerGPT/src/SimpleWebServerGPT.java:77 | exactly the eight case spellings of "get" are handled as GET |
| FileSystem.Collapse | SimpleWebServerGPT/src/SimpleWebServerGPT.java:96 | collapsing runs of '/' leaves no doubled '/', keeps the last character, and is empty only for an empty input |
| FileSystem.Normalize | SimpleWebServerGPT/src/SimpleWebServerGPT.java:96 | the pathname `new File` keeps is in normal form, and is empty only for an empty input |
| FileSystem.CollapseKeepsNames | SimpleWebServerGPT/src/SimpleWebServerGPT.java:96 | collapsing keeps every character other than '/', in order, and leaves a '/' exactly when the input has one |
| FileSystem.NormalizeKeepsNames | SimpleWebServerGPT/src/SimpleWebServerGPT.java:96 | normalizing keeps every character other than '/', in order |
| FileSystem.NormalizeOfNormal | SimpleWebServerGPT/src/SimpleWebServerGPT.java:96 | a pathname already in normal form is kept as it is |
| FileSystem.NormalizeIdempotent | SimpleWebServerGPT/src/SimpleWebServerGPT.java:96 | normalizing twice is the same as normalizing once |
| FileSystem.CollapseAppendPlain | SimpleWebServerGPT/src/SimpleWebServerGPT.java:96 | appending characters other than '/' commutes with collapsing |
| FileSystem.NormalizeChild | SimpleWebServerGPT/src/SimpleWebServerGPT.java:96-99 | asking for `s + "/" + name` names the same file as resolving `name` in the directory `s` |
| FileSystem.Name | SimpleWebServerGPT/src/SimpleWebServerGPT.java:115 | `getName` returns the longest '/'-free suffix of the pathname |
| FileSystem.NameOfResolve | SimpleWebServerGPT/src/SimpleWebServerGPT.java:99 | a child resolved in a directory is named by the name it was resolved with |
| Exchange.SilentWithoutPath | SimpleWebServerGPT/src/SimpleWebServerGPT.java:70-83 | no request line, or fewer than two tokens, means nothing is written |
| Exchange.Dispatch | SimpleWebServerGPT/src/SimpleWebServerGPT.java:72-81 | any casing of GET is served from the path, including an empty path token followed by a non-empty token; every other method gets exactly the 501 text |
| Exchange.MissingIsNotFound | SimpleWebServerGPT/src/SimpleWebServerGPT.java:96-97 | a path with nothing behind it gets exactly the 404 text |
| Exchange.RegularFileIsSent | SimpleWebServerGPT/src/SimpleWebServerGPT.java:105-107 | a regular file is answered with its file response |
| Exchange.DirectoryServesIndex | SimpleWebServerGPT/src/SimpleWebServerGPT.java:98-101 | a directory holding a regular index.html is answered with that file, the same answer a request for `path/index.html` gets |
| Exchange.IndexDirectoryGivesNothing | SimpleWebServerGPT/src/SimpleWebServerGPT.java:99-101 | an index.html that is itself a directory cannot be opened, so nothing is written |
| Exchange.DirectoryWithoutIndexIsListed | SimpleWebServerGPT/src/SimpleWebServerGPT.java:102-104 | a directory without index.html is answered with the listing of its own entries |
| Exchange.FileResponseFraming | SimpleWebServerGPT/src/SimpleWebServerGPT.java:133-146 | when the MIME type and file name hold no line break, a client reading up to the first blank line gets the header block; the rest is exactly the file; the declared Content-Length equals the number of bytes after the headers |
| Exchange.FileResponseOfFile | SimpleWebServerGPT/src/SimpleWebServerGPT.java:133-146 | for a regular file, the response is its header block with the file's byte count, followed by the file's bytes |
| Exchange.FileResponseHeaders | SimpleWebServerGPT/src/SimpleWebServerGPT.java:125-135 | the Content-Type is the probed type, or application/octet-stream when the probe finds none; the download is offered under the file's own name |
| Exchange.IndexFileName | SimpleWebServerGPT/src/SimpleWebServerGPT.java:12 | an index file is offered for download as "index.html" |
| Exchange.JoinedAppend | SimpleWebServerGPT/src/SimpleWebServerGPT.java:171-179 | the items of two runs of entries are the items of the first run followed by those of the second |
| Exchange.JoinedCons | SimpleWebServerGPT/src/SimpleWebServerGPT.java:171-179 | the first entry's item comes before the items of the others |
| Exchange.JoinedAt | SimpleWebServerGPT/src/SimpleWebServerGPT.java:171-179 | each entry's item sits between the items of the entries before it and those after it |
| Exchange.ListingItemsSnoc | SimpleWebServerGPT/src/SimpleWebServerGPT.java:171-179 | one more entry appends exactly that entry's item |
| Exchange.ListingItemsNone | SimpleWebServerGPT/src/SimpleWebServerGPT.java:171 | no entries give no items |
| Exchange.ListingItemsStep | SimpleWebServerGPT/src/SimpleWebServerGPT.java:176-178 | appending the next entry's item to the text built so far gives the text for one more entry |
| Exchange.ListingItemAt | SimpleWebServerGPT/src/SimpleWebServerGPT.java:171-179 | the listing holds one item per entry, in enumeration order |
| Exchange.EntryItemShowsEntry | SimpleWebServerGPT/src/SimpleWebServerGPT.java:172-178 | each item links to the entry by its own name and shows its size and formatted modification time |
| Exchange.ListingResponseFraming | SimpleWebServerGPT/src/SimpleWebServerGPT.java:184-185 | the listing is a header block with the doubled "HTTP/1.1 " status line; after its blank line come "OK" and then the page |
| Responses.StatusResponseText | SimpleWebServerGPT/src/SimpleWebServerGPT.java:188-192 | the text `sendResponse` concatenates is the two-line header block followed by the message |
| Responses.TypedResponseText | SimpleWebServerGPT/src/SimpleWebServerGPT.java:197-203 | the text of the typed overload is its three-line header block, with "HTTP/1.1 " in front of the status line, followed by the message |
| Responses.FileHeadText | SimpleWebServerGPT/src/SimpleWebServerGPT.java:133-138 | the header text `sendFile` concatenates is the block of its five header lines |
| Responses.LinesOfTwo | SimpleWebServerGPT/src/SimpleWebServerGPT.java:189-191 | a two-line block is each line followed by CR LF |
| Responses.LinesOfThree | SimpleWebServerGPT/src/SimpleWebServerGPT.java:198-201 | a three-line block is each line followed by CR LF |
| Responses.LinesOfFive | SimpleWebServerGPT/src/SimpleWebServerGPT.java:133-138 | a five-line block is each line followed by CR LF |
| Responses.FindBlankLine | SimpleWebServerGPT/src/SimpleWebServerGPT.java:138 | the client's end of headers is the first CR LF CR LF, or none when there is none |
| Responses.LinesNoEarlyBlank | SimpleWebServerGPT/src/SimpleWebServerGPT.java:133-137 | header lines without line breaks never form a blank line before the block's end |
| Responses.EncodeCrLf | SimpleWebServerGPT/src/SimpleWebServerGPT.java:141 | a CR or LF byte on the wire is exactly a CR or LF character in the text |
| Responses.HeaderBlockFraming | SimpleWebServerGPT/src/SimpleWebServerGPT.java:133-141 | a client reading up to the first blank line stops exactly at the end of the header block, whatever body follows |
| Responses.StatusResponseFraming | SimpleWebServerGPT/src/SimpleWebServerGPT.java:188-194 | a status response is its two-line header block followed by the message, and a client finds the block's end there |
| Responses.TypedResponseFraming | SimpleWebServerGPT/src/SimpleWebServerGPT.java:197-204 | a typed response, and whatever follows it, is its header block followed by the message and the rest |
| Responses.NotImplementedFraming | SimpleWebServerGPT/src/SimpleWebServerGPT.java:80 | the 501 answer has no Content-Type or Content-Length, and "Not Implemented" is its whole body |
| Responses.NotFoundFraming | SimpleWebServerGPT/src/SimpleWebServerGPT.java:109 | the 404 answer has no Content-Type or Content-Length, and "File Not Found" is its whole body |
| Responses.ListingStatusLine | SimpleWebServerGPT/src/SimpleWebServerGPT.java:184 | the listing's status line is "HTTP/1.1 HTTP/1.1 200 OK" |
| Responses.ListingHeadLines | SimpleWebServerGPT/src/SimpleWebServerGPT.java:198-199 | both composed header lines of the listing are free of line breaks |
| Responses.LabeledLine | SimpleWebServerGPT/src/SimpleWebServerGPT.java:134-136 | a header name followed by a value and suffix without line breaks is a header line |
| Responses.DigitsNoBreak | SimpleWebServerGPT/src/SimpleWebServerGPT.java:136 | the decimal Content-Length holds no line break |
| Responses.FileHeadLinesWellFormed | SimpleWebServerGPT/src/SimpleWebServerGPT.java:133-137 | all five header lines of a file response are free of line breaks when the type and name are |
| Server.OutputStream.Write | SimpleWebServerGPT/src/SimpleWebServerGPT.java:141 | `write` appends the given bytes to what the connection has received |
| Server.OutputStream.WriteRange | SimpleWebServerGPT/src/SimpleWebServerGPT.java:145 | `write(buffer, 0, n)` appends the first n bytes of the buffer |
| Server.FileInputStream.Read | SimpleWebServerGPT/src/SimpleWebServerGPT.java:144 | `read` returns -1 at the end of the file; otherwise it copies the next bytes, as many as fit, to the front of the buffer and advances |
| Server.BuildListing | SimpleWebServerGPT/src/SimpleWebServerGPT.java:166-183 | the `StringBuilder` loop builds exactly the listing page: the opening, one item per entry in order, then the closing |
| Server.FileHeaders | SimpleWebServerGPT/src/SimpleWebServerGPT.java:133-138 | the concatenated header string is the file response's header block |
| Server.TransferFile | SimpleWebServerGPT/src/SimpleWebServerGPT.java:120-121 | opening the file and allocating the 1024-byte buffer, then copying, writes exactly the file's bytes |
| Server.CopyStream | SimpleWebServerGPT/src/SimpleWebServerGPT.java:144-146 | the read/write loop writes the whole file, in order, and ends |
| Server.WebServer.SendResponse | SimpleWebServerGPT/src/SimpleWebServerGPT.java:188-195 | writes exactly the status response |
| Server.WebServer.SendTypedResponse | SimpleWebServerGPT/src/SimpleWebServerGPT.java:197-205 | writes exactly the typed response |
| Server.WebServer.SendFile | SimpleWebServerGPT/src/SimpleWebServerGPT.java:113-158 | writes exactly the file response: nothing when the target is not a regular file, otherwise the header block followed by the file |
| Server.WebServer.SendRegularFile | SimpleWebServerGPT/src/SimpleWebServerGPT.java:114-146 | for a regular file, writes the header block with the probed or default type, the file's name and its size, then the file's bytes |
| Server.WebServer.SendDirectoryListing | SimpleWebServerGPT/src/SimpleWebServerGPT.java:162-186 | writes exactly the listing response |
| Server.WebServer.HandleGetRequest | SimpleWebServerGPT/src/SimpleWebServerGPT.java:95-111 | writes exactly the GET response for `rootDirectory + path` |
| Server.WebServer.HandleClient | SimpleWebServerGPT/src/SimpleWebServerGPT.java:65-83 | writes exactly `ConnectionOutput` for the input |
| Server.WebServer.Serve | SimpleWebServerGPT/src/SimpleWebServerGPT.java:65-93 | one connection receives exactly `ConnectionOutput` for what it sent |
| Server.WebServer.constructor | SimpleWebServerGPT/src/SimpleWebServerGPT.java:16-17 | before configuration, the port is 0 and the root is "", standing in for Java's `null` |

## Left out

- The accept loop, the `ServerSocket` and one thread per client
  (`SimpleWebServerGPT.java:43-55`) are not modelled. Each connection is
  modelled on its own, as `Serve` over that connection's input.
- `main` (`SimpleWebServerGPT.java:209-212`) is not modelled.
- Console messages and `flush` are not modelled.
- The port is not checked against the range `ServerSocket` accepts. A port
  outside 0-65535 would make `start` fail, which is outside the model.
- `Properties.load` parsing (escapes, continuation lines, comments) is not
  modelled. A loaded file is given as its resulting key-value map.
- `Files.probeContentType` and `SimpleDateFormat` with the platform time
  zone are not modelled. They are parameters of `Exchange.Env`.
- `Wire.ParseInt`: does not model the non-ASCII Unicode digits that
  `Integer.parseInt` also accepts.
- The platform charset is taken to be US-ASCII: unmappable characters
  become '?'. Other charsets are not modelled. The request line is taken
  as already decoded characters.
- `JavaText.EqualsIgnoreCase`: folds case on ASCII letters only, without
  Unicode case mapping.
- `Server.FileInputStream.Read`: always returns as many bytes as fit in the
  buffer, although Java's `read` may legally return fewer. The written
  bytes are the same either way.
- `Server.WebServer.SendFile`: does not model an IOException in the middle
  of a transfer, or the closing of the stream and socket. A target that is
  not a regular file writes nothing, which matches the source, where the
  exception is caught and logged by `run`.
- `Server.WebServer.SendFile`: does not model read permissions. In the
  source, a regular file that cannot be read makes `new FileInputStream`
  throw (line 120), and nothing is written. The model sends every regular
  file in full.
- `Server.WebServer.constructor`: starts `rootDirectory` at "" where Java
  starts it at `null`. The difference cannot be observed, because the Java
  constructor either assigns both fields or throws.
- `Server.WebServer.SendDirectoryListing`: does not model unreadable
  directories. For a directory it cannot read, `listFiles` returns null, and
  the loop at line 171 throws a NullPointerException. `run` catches only
  IOException (line 84), so the exception escapes and nothing is written
  (the writes are at lines 184-185). The model sends the listing.
- `new File("")` and the existence of the empty pathname depend on the
  JDK version. The model leaves them to the file tree's map.
- Directory entries are taken as child names without '/', in the order
  `listFiles` returns them.
