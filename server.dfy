/**
 * The server object and its client handler, written as the statements the
 * handler executes against an output stream. Each method is proved to write
 * exactly the bytes the functions of `Exchange` describe.
 */
module Server {
  import opened Wrappers
  import opened Wire
  import opened JavaText
  import opened FileSystem
  import opened Responses
  import opened Configuration
  import opened Exchange

  /** The size of the buffer `sendFile` copies the file through. */
  const BUFFER_SIZE: nat := 1024

  /** The connection's output stream: the bytes written to it so far. */
  class OutputStream {
    var written: seq<byte>

    constructor()
      ensures written == []
    {
      written := [];
    }

    /** `write(bytes)`. */
    method Write(bytes: seq<byte>)
      modifies this
      ensures written == old(written) + bytes
    {
      written := written + bytes;
    }

    /** `write(buffer, 0, count)`. */
    method WriteRange(buffer: array<byte>, count: nat)
      requires count <= buffer.Length
      modifies this
      ensures written == old(written) + buffer[..count]
    {
      written := written + buffer[..count];
    }
  }

  /** A `FileInputStream` over the bytes of a regular file. */
  class FileInputStream {
    const data: seq<byte>
    var position: nat

    ghost predicate Valid()
      reads this
    {
      position <= |data|
    }

    constructor(data: seq<byte>)
      ensures this.data == data && position == 0 && Valid()
    {
      this.data := data;
      position := 0;
    }

    /**
     * `read(buffer)`: -1 at the end of the file; otherwise the next bytes of
     * the file, as many as fit in the buffer, copied to its front.
     */
    method Read(buffer: array<byte>) returns (count: int)
      requires Valid() && buffer.Length > 0
      modifies this, buffer
      ensures Valid()
      ensures old(position) == |data| ==> count == -1 && position == old(position)
      ensures old(position) < |data| ==>
        count == (if |data| - old(position) < buffer.Length then |data| - old(position) else buffer.Length) &&
        position == old(position) + count &&
        buffer[..count] == data[old(position)..position]
    {
      if position == |data| {
        return -1;
      }
      count := if |data| - position < buffer.Length then |data| - position else buffer.Length;
      var start := position;
      forall k | 0 <= k < count {
        buffer[k] := data[start + k];
      }
      position := position + count;
    }
  }

  /**
   * The page `sendDirectoryListing` builds in its `StringBuilder`: the
   * opening, then for each entry in enumeration order its name, size and
   * formatted modification time, then the closing.
   */
  method BuildListing(env: Env, directory: string, files: seq<string>) returns (listing: string)
    ensures listing == ListingPage(env, directory, files)
  {
    var builder := "<html><head><title>Directory Listing</title></head><body>";
    builder := builder + "<h1>Directory Listing</h1>";
    builder := builder + "<ul>";
    ListingItemsNone(env, directory, files);
    for i := 0 to |files|
      invariant builder == LISTING_OPEN + ListingItems(env, directory, files[..i])
    {
      var file := Resolve(directory, files[i]);
      var fileName := Name(file);
      var modifiedDate := env.formatDate(LastModified(env.fs, file));
      ListingItemsStep(env, directory, files, i, LISTING_OPEN, builder);
      builder := builder + ListingItem(fileName, Length(env.fs, file), modifiedDate);
    }
    assert files[..|files|] == files;
    listing := builder + "</ul></body></html>";
  }

  /** The header text `sendFile` concatenates. */
  method FileHeaders(contentType: string, fileName: string, fileSize: nat) returns (responseHeaders: string)
    ensures responseHeaders == FileHead(contentType, fileName, fileSize)
  {
    responseHeaders := "HTTP/1.1 200 OK" + "\r\n"
      + ("Content-Type: " + contentType) + "\r\n"
      + ("Content-Disposition: attachment; filename=\"" + fileName + "\"") + "\r\n"
      + ("Content-Length: " + NatToString(fileSize)) + "\r\n"
      + "Connection: close" + "\r\n"
      + "\r\n";
    FileHeadText(contentType, fileName, fileSize);
  }

  /** `sendFile` from opening the file on: a `FileInputStream`, a 1024-byte buffer, and the copy loop. */
  method TransferFile(data: seq<byte>, out: OutputStream)
    modifies out
    ensures out.written == old(out.written) + data
  {
    var fileInputStream := new FileInputStream(data);
    var buffer := new byte[BUFFER_SIZE];
    CopyStream(fileInputStream, buffer, out);
  }

  /**
   * The copy loop of `sendFile`: read into the buffer until `read` reports
   * the end, and write each chunk read. Together the chunks are the whole
   * file, in order.
   */
  method CopyStream(fileInputStream: FileInputStream, buffer: array<byte>, out: OutputStream)
    requires fileInputStream.Valid() && fileInputStream.position == 0 && buffer.Length == BUFFER_SIZE
    modifies fileInputStream, buffer, out
    ensures out.written == old(out.written) + fileInputStream.data
  {
    var data := fileInputStream.data;
    ghost var start := out.written;
    ghost var done := 0;
    var bytesRead := fileInputStream.Read(buffer);
    while bytesRead != -1
      invariant fileInputStream.Valid()
      invariant bytesRead == -1 ==> done == fileInputStream.position == |data|
      invariant bytesRead != -1 ==>
        0 < bytesRead <= buffer.Length && fileInputStream.position == done + bytesRead &&
        buffer[..bytesRead] == data[done..done + bytesRead]
      invariant out.written == start + data[..done]
      decreases |data| - done
    {
      out.WriteRange(buffer, bytesRead);
      assert data[..done] + data[done..done + bytesRead] == data[..done + bytesRead];
      done := done + bytesRead;
      bytesRead := fileInputStream.Read(buffer);
    }
    assert data[..done] == data;
  }

  /** `SimpleWebServerGPT`: the configured port and root directory. */
  class WebServer {
    var port: int
    var rootDirectory: string

    /**
     * The fields before `loadConfiguration` assigns them. Java starts them at
     * 0 and `null`; "" stands in for `null`. Neither value can be observed,
     * since the Java constructor either assigns both fields or throws.
     */
    constructor()
      ensures port == 0 && rootDirectory == ""
    {
      port := 0;
      rootDirectory := "";
    }

    /**
     * `loadConfiguration`: the file's values, or the defaults when there is
     * no file or it cannot be read. `thrown` is the NumberFormatException of
     * a port that is not a number, raised before either field is assigned.
     */
    method LoadConfiguration(source: ConfigSource) returns (thrown: bool)
      modifies this
      ensures thrown <==> Configure(source).None?
      ensures !thrown ==>
        port == Configure(source).value.port && rootDirectory == Configure(source).value.rootDirectory
      ensures thrown ==> port == old(port) && rootDirectory == old(rootDirectory)
    {
      match source {
        case Loaded(properties) =>
          var parsed := ParseInt(GetProperty(properties, "port", NatToString(DEFAULT_PORT)));
          if parsed.None? {
            return true;
          }
          port := parsed.value;
          rootDirectory := GetProperty(properties, "rootDirectory", "");
        case Absent =>
          port := DEFAULT_PORT;
          rootDirectory := "";
        case Unreadable =>
          port := DEFAULT_PORT;
          rootDirectory := "";
      }
      return false;
    }

    /** `sendResponse(out, statusLine, statusMessage)`. */
    method SendResponse(out: OutputStream, statusLine: string, statusMessage: string)
      modifies out
      ensures out.written == old(out.written) + Encode(StatusResponse(statusLine, statusMessage))
    {
      var response := statusLine + "\r\n" + "Connection: close" + "\r\n" + "\r\n" + statusMessage;
      StatusResponseText(statusLine, statusMessage);
      out.Write(Encode(response));
    }

    /** `sendResponse(out, statusLine, statusMessage, contentType)`, which prefixes "HTTP/1.1 " itself. */
    method SendTypedResponse(out: OutputStream, statusLine: string, statusMessage: string, contentType: string)
      modifies out
      ensures out.written == old(out.written) + Encode(TypedResponse(statusLine, statusMessage, contentType))
    {
      var responseHeaders := ("HTTP/1.1 " + statusLine) + "\r\n" + ("Content-Type: " + contentType) + "\r\n"
        + "Connection: close" + "\r\n" + "\r\n";
      var response := responseHeaders + statusMessage;
      TypedResponseText(statusLine, statusMessage, contentType);
      out.Write(Encode(response));
    }

    /**
     * `sendFile`: the header block, then the file copied through a
     * 1024-byte buffer until `read` reports the end. Anything that is not a
     * regular file makes `new FileInputStream` throw before a byte is written.
     *
     * The source opens the stream before it writes the headers; here the
     * stream is opened after them, in `TransferFile`. The order makes no
     * difference to what is written, because `IsFileAt` decides up front
     * whether opening succeeds, and on failure nothing is written at all.
     */
    method SendFile(env: Env, out: OutputStream, file: string)
      modifies out
      ensures out.written == old(out.written) + FileResponse(env, file)
    {
      if !IsFileAt(env, file) {
        assert FileResponse(env, file) == [];
        return;
      }
      SendRegularFile(env, out, file);
      FileResponseOfFile(env, file);
    }

    /** `sendFile` for a regular file, which `new FileInputStream` opens. */
    method SendRegularFile(env: Env, out: OutputStream, file: string)
      requires IsFileAt(env, file)
      modifies out
      ensures out.written ==
        old(out.written) + (Encode(FileHead(ContentType(env.probe(file)), Name(file), |env.fs[file].data|)) + env.fs[file].data)
    {
      var mimeType := env.probe(file);
      var fileName := Name(file);
      var fileSize := Length(env.fs, file);
      var data := env.fs[file].data;
      var contentType := if mimeType.Some? then mimeType.value else "application/octet-stream";
      var responseHeaders := FileHeaders(contentType, fileName, fileSize);
      var head := Encode(responseHeaders);
      out.Write(head);
      TransferFile(data, out);
      AppendAssociates(old(out.written), head, data);
    }

    /**
     * `sendDirectoryListing`: the typed "200 OK" header block with its "OK",
     * then the page listing the directory's entries.
     */
    method SendDirectoryListing(env: Env, out: OutputStream, directory: string)
      requires directory in env.fs && env.fs[directory].Directory?
      modifies out
      ensures out.written == old(out.written) + ListingResponse(env, directory, env.fs[directory].entries)
    {
      var files := env.fs[directory].entries;
      var listing := BuildListing(env, directory, files);
      SendTypedResponse(out, "HTTP/1.1 200 OK", "OK", "text/html");
      out.Write(Encode(listing));
      AppendAssociates(old(out.written), Encode(LISTING_HEAD), Encode(listing));
    }

    /** `handleGetRequest`: the file, the index file, the listing, or the 404 for `rootDirectory + path`. */
    method HandleGetRequest(env: Env, out: OutputStream, path: string)
      modifies out
      ensures out.written == old(out.written) + GetResponse(env, rootDirectory, path)
    {
      var file := Normalize(rootDirectory + path);
      if file in env.fs {
        if env.fs[file].Directory? {
          var indexFile := Resolve(file, INDEX_FILE_NAME);
          if indexFile in env.fs {
            SendFile(env, out, indexFile);
          } else {
            SendDirectoryListing(env, out, file);
          }
        } else {
          SendFile(env, out, file);
        }
      } else {
        SendResponse(out, "HTTP/1.1 404 Not Found", "File Not Found");
      }
    }

    /**
     * `ClientHandler.run`: read the request line, split it, and answer a
     * GET in any casing from the file tree and any other method with 501.
     */
    method HandleClient(env: Env, input: string, out: OutputStream)
      modifies out
      ensures out.written == old(out.written) + ConnectionOutput(env, rootDirectory, input)
    {
      var request := ReadLine(input);
      if request.Some? {
        var requestParts := Split(request.value);
        if |requestParts| >= 2 {
          var verb := requestParts[0];
          var path := requestParts[1];
          if EqualsIgnoreCase(verb, "GET") {
            HandleGetRequest(env, out, path);
          } else {
            SendResponse(out, "HTTP/1.1 501 Not Implemented", "Not Implemented");
          }
        }
      }
    }

    /** One connection from start to end: what the client receives for what it sent. */
    method Serve(env: Env, input: string) returns (response: seq<byte>)
      ensures response == ConnectionOutput(env, rootDirectory, input)
    {
      var out := new OutputStream();
      HandleClient(env, input, out);
      response := out.written;
    }
  }

  /**
   * `new SimpleWebServerGPT()`: a server carrying the configured values, or
   * `null` when the NumberFormatException of a malformed port escapes the
   * constructor.
   */
  method NewServer(source: ConfigSource) returns (server: WebServer?)
    ensures server == null <==> Configure(source).None?
    ensures server != null ==>
      server.port == Configure(source).value.port &&
      server.rootDirectory == Configure(source).value.rootDirectory
  {
    server := new WebServer();
    var thrown := server.LoadConfiguration(source);
    if thrown {
      server := null;
    }
  }
}
