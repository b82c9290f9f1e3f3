/**
 * The part of `java.io.File` the server uses, over an abstract file tree.
 *
 * A `File` built from a string holds that string in normal form (no doubled
 * '/', no trailing '/'), and every question it asks the operating system is
 * asked about that normal pathname. The operating system is a map from
 * normal pathnames to what exists there.
 */
module FileSystem {
  import opened Wire

  /** What the operating system reports at a pathname. */
  datatype Node =
    | RegularFile(data: seq<byte>, lastModified: int)
      /** `entries` are the child names in the order `File.list` enumerates them. */
    | Directory(entries: seq<string>, size: nat, lastModified: int)

  type FileTree = map<string, Node>

  // ---------------------------------------------------------------------
  // Pathnames

  predicate NoDoubleSlash(s: string) {
    forall i :: 0 <= i < |s| - 1 ==> !(s[i] == '/' && s[i + 1] == '/')
  }

  /** The form `java.io.File` keeps its pathname in on Unix. */
  predicate IsNormal(s: string) {
    NoDoubleSlash(s) && (|s| > 1 ==> s[|s| - 1] != '/')
  }

  /** `s` with every run of '/' shortened to a single '/'. */
  function Collapse(s: string): (r: string)
    ensures NoDoubleSlash(r)
    ensures |r| <= |s| && (r == [] <==> s == [])
    ensures s != [] ==> r[|r| - 1] == s[|s| - 1]
  {
    if s == [] then []
    else
      var c := Collapse(s[..|s| - 1]);
      var last := s[|s| - 1];
      if last == '/' && c != [] && c[|c| - 1] == '/' then c else c + [last]
  }

  /**
   * The pathname `new File(s)` holds: runs of '/' collapsed and a trailing
   * '/' dropped, except that a pathname made only of slashes becomes "/".
   */
  function Normalize(s: string): (r: string)
    ensures IsNormal(r)
    ensures r == [] <==> s == []
  {
    var c := Collapse(s);
    if |c| > 1 && c[|c| - 1] == '/' then c[..|c| - 1] else c
  }

  lemma {:induction false} CollapseOfNoDoubleSlash(s: string)
    requires NoDoubleSlash(s)
    ensures Collapse(s) == s
  {
    if s != [] {
      var init := s[..|s| - 1];
      assert NoDoubleSlash(init) by {
        forall i | 0 <= i < |init| - 1 ensures !(init[i] == '/' && init[i + 1] == '/') {
          assert init[i] == s[i] && init[i + 1] == s[i + 1];
        }
      }
      CollapseOfNoDoubleSlash(init);
      if |s| >= 2 {
        assert !(s[|s| - 2] == '/' && s[|s| - 1] == '/');
      }
      assert s == init + [s[|s| - 1]];
    }
  }

  /** A normal pathname is left as it is, so normalizing twice changes nothing. */
  lemma NormalizeOfNormal(s: string)
    requires IsNormal(s)
    ensures Normalize(s) == s
  {
    CollapseOfNoDoubleSlash(s);
  }

  lemma NormalizeIdempotent(s: string)
    ensures Normalize(Normalize(s)) == Normalize(s)
  {
    NormalizeOfNormal(Normalize(s));
  }

  /** Appending characters other than '/' does not interact with collapsing. */
  lemma {:induction false} CollapseAppendPlain(s: string, t: string)
    requires s != [] && '/' !in t
    ensures Collapse(s + t) == Collapse(s) + t
    decreases |t|
  {
    if t != [] {
      var t0 := t[..|t| - 1];
      CollapseAppendPlain(s, t0);
      assert (s + t)[..|s + t| - 1] == s + t0;
      assert t[|t| - 1] != '/' by { assert t[|t| - 1] in t; }
      var last := t[|t| - 1];
      assert Collapse(s + t) == Collapse(s + t0) + [last];
      assert t == t0 + [last];
      assert Collapse(s) + t0 + [last] == Collapse(s) + t;
    } else {
      assert s + t == s;
    }
  }

  /** The characters of `s` other than '/', in order. */
  function Unslashed(s: string): string {
    if s == [] then []
    else Unslashed(s[..|s| - 1]) + (if s[|s| - 1] == '/' then [] else [s[|s| - 1]])
  }

  /**
   * Collapsing changes only the separators: the names in the pathname are
   * kept, in order, and there is a '/' in the result exactly when there is
   * one in the input.
   */
  lemma {:induction false} CollapseKeepsNames(s: string)
    ensures Unslashed(Collapse(s)) == Unslashed(s)
    ensures '/' in Collapse(s) <==> '/' in s
  {
    if s != [] {
      var init := s[..|s| - 1];
      var last := s[|s| - 1];
      var c := Collapse(init);
      CollapseKeepsNames(init);
      assert s == init + [last];
      if last == '/' && c != [] && c[|c| - 1] == '/' {
        assert '/' in init;
      } else {
        assert (c + [last])[..|c + [last]| - 1] == c;
        assert '/' in c + [last] <==> '/' in c || last == '/';
        assert '/' in s <==> '/' in init || last == '/';
      }
    }
  }

  /**
   * Normalizing also keeps the names, in order; only a trailing '/' after
   * the root may go.
   */
  lemma NormalizeKeepsNames(s: string)
    ensures Unslashed(Normalize(s)) == Unslashed(s)
  {
    var c := Collapse(s);
    CollapseKeepsNames(s);
    if |c| > 1 && c[|c| - 1] == '/' {
      assert Unslashed(c) == Unslashed(c[..|c| - 1]);
    }
  }

  /**
   * `new File(parent, child)` for a child name without '/': the child
   * pathname is `parent/child`, with no doubled '/' when the parent is the
   * root, and "/child" when the parent pathname is empty.
   */
  function Resolve(parent: string, child: string): string {
    if parent == "/" then parent + child else parent + "/" + child
  }

  /**
   * Asking for `s + "/" + name` directly names the same file as the
   * directory `s` resolving `name` as its child.
   */
  lemma NormalizeChild(s: string, name: string)
    requires name != "" && '/' !in name
    ensures Normalize(s + "/" + name) == Resolve(Normalize(s), name)
  {
    var slash := s + "/";
    CollapseAppendPlain(slash, name);
    assert slash[..|slash| - 1] == s;
    var c := Collapse(s);
    var cs := Collapse(slash);
    var whole := Collapse(slash + name);
    assert whole[|whole| - 1] == name[|name| - 1];
    assert name[|name| - 1] != '/' by { assert name[|name| - 1] in name; }
    assert Normalize(s + "/" + name) == cs + name;
    if s == [] {
      assert cs == "/";
    } else if s[|s| - 1] == '/' {
      assert cs == c;
      if |c| > 1 {
        assert c[|c| - 2] != '/';
        assert c[..|c| - 1] + "/" + name == c + name;
      }
    } else {
      assert cs == c + "/";
    }
  }

  /**
   * `file.getName()`: the last name in the pathname, i.e. the longest
   * suffix without '/' ("" for the root).
   */
  function Name(p: string): (r: string)
    ensures '/' !in r
    ensures |r| <= |p| && r == p[|p| - |r|..]
    ensures |r| < |p| ==> p[|p| - |r| - 1] == '/'
  {
    if p == [] || p[|p| - 1] == '/' then []
    else Name(p[..|p| - 1]) + [p[|p| - 1]]
  }

  /** A resolved child is named by the name it was resolved with. */
  lemma NameOfResolve(parent: string, child: string)
    requires child != "" && '/' !in child
    ensures Name(Resolve(parent, child)) == child
  {
    var p := Resolve(parent, child);
    var r := Name(p);
    assert p[|p| - |child| - 1] == '/';
    assert p[|p| - |child|..] == child;
  }

  // ---------------------------------------------------------------------
  // Questions asked of a File

  /** `file.length()`: the byte count of a regular file, the reported size of a directory, 0 when nothing is there. */
  function Length(fs: FileTree, p: string): nat {
    if p !in fs then 0
    else match fs[p]
      case RegularFile(data, _) => |data|
      case Directory(_, size, _) => size
  }

  /** `file.lastModified()`: 0 when nothing is there. */
  function LastModified(fs: FileTree, p: string): int {
    if p in fs then fs[p].lastModified else 0
  }
}
