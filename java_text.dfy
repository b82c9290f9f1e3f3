/**
 * The three `java.lang` text operations the request parser relies on:
 * `BufferedReader.readLine`, `String.split(" ")` and
 * `String.equalsIgnoreCase`.
 */
module JavaText {
  import opened Wrappers

  predicate IsLineBreak(c: char) {
    c == '\n' || c == '\r'
  }

  /** The characters of `s` before its first line break (all of `s` if it has none). */
  function LineOf(s: string): (line: string)
    ensures |line| <= |s| && line == s[..|line|]
    ensures forall i :: 0 <= i < |line| ==> !IsLineBreak(line[i])
    ensures |line| == |s| || IsLineBreak(s[|line|])
  {
    if s == [] || IsLineBreak(s[0]) then [] else [s[0]] + LineOf(s[1..])
  }

  /**
   * `reader.readLine()` on a fresh reader: `None` (Java's `null`) when the
   * stream ends before any character, otherwise the first line without its
   * terminator.
   */
  function ReadLine(input: string): (r: Option<string>)
    ensures r.None? <==> input == []
    ensures r.Some? ==> r.value == LineOf(input)
  {
    if input == [] then None else Some(LineOf(input))
  }

  // ---------------------------------------------------------------------
  // String.split(" ")

  /** The position of the first space in `s`. */
  function FirstSpace(s: string): (i: nat)
    requires ' ' in s
    ensures i < |s| && s[i] == ' ' && ' ' !in s[..i]
  {
    if s[0] == ' ' then 0 else 1 + FirstSpace(s[1..])
  }

  /**
   * The pieces of `s` between single spaces, empty pieces included: the list
   * `split` builds before it trims the trailing empty strings.
   */
  function Pieces(s: string): (r: seq<string>)
    ensures |r| >= 1
    ensures forall k :: 0 <= k < |r| ==> ' ' !in r[k]
    decreases |s|
  {
    if ' ' !in s then [s]
    else
      var i := FirstSpace(s);
      [s[..i]] + Pieces(s[i + 1..])
  }

  /** Pieces glued back together with single spaces. */
  function Join(pieces: seq<string>): string
    requires |pieces| >= 1
  {
    if |pieces| == 1 then pieces[0] else pieces[0] + " " + Join(pieces[1..])
  }

  /** Splitting loses nothing: joining the pieces gives the string back. */
  lemma {:induction false} JoinPieces(s: string)
    ensures Join(Pieces(s)) == s
    decreases |s|
  {
    if ' ' in s {
      var i := FirstSpace(s);
      JoinPieces(s[i + 1..]);
      assert Pieces(s)[1..] == Pieces(s[i + 1..]);
      assert s == s[..i] + " " + s[i + 1..];
    }
  }

  /** A space after a space-free word ends the first piece. */
  lemma PiecesCons(a: string, b: string)
    requires ' ' !in a
    ensures Pieces(a + " " + b) == [a] + Pieces(b)
  {
    var s := a + " " + b;
    assert s[|a|] == ' ';
    var i := FirstSpace(s);
    assert s[..i] == a;
    assert s[i + 1..] == b;
  }

  /** The other direction: space-free pieces are exactly what splitting their join gives. */
  lemma {:induction false} PiecesOfJoin(pieces: seq<string>)
    requires |pieces| >= 1
    requires forall k :: 0 <= k < |pieces| ==> ' ' !in pieces[k]
    ensures Pieces(Join(pieces)) == pieces
  {
    if |pieces| > 1 {
      var rest := pieces[1..];
      assert forall k :: 0 <= k < |rest| ==> rest[k] == pieces[k + 1];
      PiecesOfJoin(rest);
      assert ' ' !in pieces[0];
      PiecesCons(pieces[0], Join(rest));
      assert pieces == [pieces[0]] + rest;
    }
  }

  /**
   * `pieces` without its trailing empty strings: the longest prefix that is
   * empty or ends in a non-empty piece.
   */
  function DropTrailingEmpty(pieces: seq<string>): (r: seq<string>)
    ensures |r| <= |pieces| && r == pieces[..|r|]
    ensures r == [] || r[|r| - 1] != ""
    ensures forall k :: |r| <= k < |pieces| ==> pieces[k] == ""
  {
    if pieces == [] then []
    else if pieces[|pieces| - 1] == "" then DropTrailingEmpty(pieces[..|pieces| - 1])
    else pieces
  }

  /** Trimming never reaches past a non-empty piece. */
  lemma DropTrailingEmptyKeeps(pieces: seq<string>, k: nat)
    requires k < |pieces| && pieces[k] != ""
    ensures var r := DropTrailingEmpty(pieces); k < |r| && r[..k + 1] == pieces[..k + 1]
  {
    var r := DropTrailingEmpty(pieces);
    assert k < |r|;
    assert r[..k + 1] == pieces[..|r|][..k + 1];
  }

  /**
   * `s.split(" ")`: with no space in `s` the whole string is the only token
   * (even when it is empty); otherwise the pieces between single spaces with
   * the trailing empty ones removed.
   */
  function Split(s: string): seq<string> {
    if ' ' !in s then [s] else DropTrailingEmpty(Pieces(s))
  }

  /**
   * A request line of the form `method SP path [SP ...]` with no space in
   * method or path yields at least two tokens, the first the method and the
   * second the path, provided the path is not empty or something other than
   * spaces follows it. An empty path token is dispatched like any other.
   */
  lemma RequestLineTokens(verb: string, path: string, rest: string)
    requires ' ' !in verb && ' ' !in path
    requires rest == [] || rest[0] == ' '
    requires path != "" || exists i :: 0 <= i < |rest| && rest[i] != ' '
    ensures var t := Split(verb + " " + path + rest);
      |t| >= 2 && t[0] == verb && t[1] == path
  {
    if path != "" {
      var line := verb + " " + path + rest;
      assert line[|verb|] == ' ';
      var p := Pieces(line);
      RequestLinePieces(verb, path, rest);
      DropTrailingEmptyKeeps(p, 1);
      assert p[..2] == [verb, path];
    } else {
      EmptyPathTokens(verb, rest);
    }
  }

  /** The empty path token survives the trimming when a later token is not empty. */
  lemma EmptyPathTokens(verb: string, rest: string)
    requires ' ' !in verb && rest != [] && rest[0] == ' '
    requires exists i :: 0 <= i < |rest| && rest[i] != ' '
    ensures var t := Split(verb + " " + "" + rest);
      |t| >= 2 && t[0] == verb && t[1] == ""
  {
    var tail := rest[1..];
    assert rest == " " + tail;
    var line := verb + " " + "" + rest;
    assert line[|verb|] == ' ';
    EmptyPathPieces(verb, tail);
    var p := Pieces(line);
    var i :| 0 <= i < |rest| && rest[i] != ' ';
    assert i != 0 && tail[i - 1] == rest[i];
    var k := PiecesHasNonEmpty(tail, i - 1);
    assert p[k + 2] == Pieces(tail)[k];
    DropTrailingEmptyKeeps(p, k + 2);
    assert p[..2] == [verb, ""];
  }

  lemma EmptyPathPieces(verb: string, tail: string)
    requires ' ' !in verb
    ensures Pieces(verb + " " + "" + (" " + tail)) == [verb, ""] + Pieces(tail)
  {
    var line := verb + " " + "" + (" " + tail);
    assert line == verb + " " + ("" + " " + tail);
    PiecesCons("", tail);
    PiecesCons(verb, "" + " " + tail);
  }

  /** A text with a character other than a space has a non-empty piece; `k` is its index. */
  lemma {:induction false} PiecesHasNonEmpty(s: string, j: nat) returns (k: nat)
    requires j < |s| && s[j] != ' '
    ensures k < |Pieces(s)| && Pieces(s)[k] != ""
    decreases |s|
  {
    if ' ' !in s {
      k := 0;
    } else {
      var i := FirstSpace(s);
      if j < i {
        assert s[..i][j] == s[j];
        k := 0;
      } else {
        assert j != i;
        assert s[i + 1..][j - i - 1] == s[j];
        var k0 := PiecesHasNonEmpty(s[i + 1..], j - i - 1);
        k := k0 + 1;
      }
    }
  }

  lemma RequestLinePieces(verb: string, path: string, rest: string)
    requires ' ' !in verb && ' ' !in path
    requires rest == [] || rest[0] == ' '
    ensures var p := Pieces(verb + " " + path + rest);
      |p| >= 2 && p[0] == verb && p[1] == path
  {
    var line := verb + " " + path + rest;
    if rest == [] {
      assert line == verb + " " + path;
      PiecesCons(verb, path);
      assert Pieces(path) == [path];
    } else {
      var tail := rest[1..];
      assert line == verb + " " + (path + " " + tail);
      PiecesCons(path, tail);
      PiecesCons(verb, path + " " + tail);
    }
  }

  /** A trailing space adds no token: `"GET "` is the single token `"GET"`. */
  lemma TrailingSpaceDropped()
    ensures Split("GET ") == ["GET"]
  {
    PiecesCons("GET", "");
    assert "GET " == "GET" + " " + "";
    assert "GET "[3] == ' ';
    assert Pieces("GET ") == ["GET", ""];
  }

  /** Two spaces in a row give an empty token: in `"GET  /x"` the path is `""`. */
  lemma DoubleSpaceGivesEmptyPath()
    ensures Split("GET  /x") == ["GET", "", "/x"]
  {
    var pieces := ["GET", "", "/x"];
    assert Join(pieces[2..]) == "/x";
    assert Join(pieces[1..]) == " /x";
    assert Join(pieces) == "GET  /x";
    PiecesOfJoin(pieces);
    assert "GET  /x"[3] == ' ';
  }

  // ---------------------------------------------------------------------
  // String.equalsIgnoreCase

  function UpperAscii(c: char): char {
    if 'a' <= c <= 'z' then (c as int - 32) as char else c
  }

  /** `a.equalsIgnoreCase(b)`: equal lengths and, position by position, the same letter up to case. */
  predicate EqualsIgnoreCase(a: string, b: string) {
    |a| == |b| && forall i :: 0 <= i < |a| ==> UpperAscii(a[i]) == UpperAscii(b[i])
  }

  /** Exactly the eight spellings of `get` in any mix of cases are dispatched as GET. */
  lemma GetSpellings(m: string)
    ensures EqualsIgnoreCase(m, "GET") <==>
      m in {"GET", "GEt", "GeT", "Get", "gET", "gEt", "geT", "get"}
  {
    if EqualsIgnoreCase(m, "GET") {
      assert m[0] == 'G' || m[0] == 'g';
      assert m[1] == 'E' || m[1] == 'e';
      assert m[2] == 'T' || m[2] == 't';
      assert m == [m[0], m[1], m[2]];
    }
  }
}
