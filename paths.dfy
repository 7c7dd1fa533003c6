/**
 * The `os.path` functions the plugins use, as POSIX `posixpath` defines them
 * (separator `/`, extension separator `.`).
 */
module Paths {
  import opened Strings

  /** `s.rfind(c)`: the index of the last `c` in `s`, or -1. */
  function RFind(s: string, c: char): (r: int)
    ensures -1 <= r < |s|
    ensures r >= 0 ==> s[r] == c
    ensures forall k :: r < k < |s| ==> s[k] != c
    decreases |s|
  {
    if |s| == 0 then -1
    else if s[|s| - 1] == c then |s| - 1
    else RFind(s[..|s| - 1], c)
  }

  /**
   * `os.path.splitext(p)`: the extension starts at the last dot of the last
   * path component, unless every character of the component before that dot
   * is a dot too (`.bashrc` has no extension).
   */
  function SplitExt(p: string): (r: (string, string))
    ensures r.0 + r.1 == p
    ensures r.1 == "" || (r.1[0] == '.' && '/' !in r.1 && '.' !in r.1[1..])
  {
    var sep := RFind(p, '/');
    var dot := RFind(p, '.');
    if dot > sep && exists k :: sep + 1 <= k < dot && p[k] != '.' then
      assert p[dot..][1..] == p[dot + 1..];
      (p[..dot], p[dot..])
    else
      (p, "")
  }

  /** `os.path.splitext(p)[-1][1:].lower()`: the extension without its dot, lower-cased. */
  function Extension(p: string): (e: string)
    ensures '.' !in e && '/' !in e && IsLower(e)
  {
    var dotted := SplitExt(p).1;
    var e := Lower(if dotted == "" then "" else dotted[1..]);
    assert forall i :: 0 <= i < |e| ==> e[i] != '.' && e[i] != '/' by {
      forall i | 0 <= i < |e| ensures e[i] != '.' && e[i] != '/' {
        assert dotted[1..][i] in dotted[1..];
      }
    }
    e
  }

  /**
   * The extension is what follows the last dot of the last component, as
   * long as some character before that dot in the component is not a dot:
   * `/m/Movie.en.mkv` splits into `/m/Movie.en` and `.mkv`.
   */
  lemma SplitExtFindsExtension(d: string, stem: string, x: string)
    requires '/' !in stem && '/' !in x && '.' !in x
    requires exists k :: 0 <= k < |stem| && stem[k] != '.'
    ensures SplitExt(d + stem + "." + x) == (d + stem, "." + x)
    ensures Extension(d + stem + "." + x) == Lower(x)
  {
    var p := d + stem + "." + x;
    var at := |d| + |stem|;
    assert forall k :: |d| <= k < |p| ==> p[k] != '/' by {
      forall k | |d| <= k < |p| ensures p[k] != '/' {
        if k < at {
          assert p[k] == stem[k - |d|];
        } else if k > at {
          assert p[k] == x[k - at - 1];
        }
      }
    }
    assert forall k :: at < k < |p| ==> p[k] != '.' by {
      forall k | at < k < |p| ensures p[k] != '.' {
        assert p[k] == x[k - at - 1];
      }
    }
    assert p[at] == '.';
    var sep := RFind(p, '/');
    var dot := RFind(p, '.');
    assert sep < |d|;
    assert dot == at;
    var j :| 0 <= j < |stem| && stem[j] != '.';
    assert p[|d| + j] == stem[j];
    assert p[..dot] == d + stem && p[dot..] == "." + x;
  }

  /**
   * A last component with no dot after its first non-dot character (a plain
   * name, or a hidden file such as `.bashrc`) has no extension.
   */
  lemma SplitExtWithoutExtension(d: string, name: string)
    requires d == "" || d[|d| - 1] == '/'
    requires '/' !in name
    requires forall i, j :: 0 <= i < j < |name| && name[i] != '.' ==> name[j] != '.'
    ensures SplitExt(d + name) == (d + name, "")
    ensures Extension(d + name) == ""
  {
    var p := d + name;
    assert forall k :: |d| <= k < |p| ==> p[k] == name[k - |d|];
    var sep := RFind(p, '/');
    if d != "" {
      assert p[|d| - 1] == '/';
    }
    assert sep == |d| - 1;
    var dot := RFind(p, '.');
    if dot > sep {
      assert forall k :: sep + 1 <= k < dot ==> p[k] == '.' by {
        forall k | sep + 1 <= k < dot ensures p[k] == '.' {
          assert p[dot] == name[dot - |d|] == '.';
          assert p[k] == name[k - |d|];
        }
      }
    }
  }

  /** `os.path.basename(p)`: what follows the last `/`. */
  function Basename(p: string): (r: string)
    ensures '/' !in r && EndsWith(p, r)
  {
    p[RFind(p, '/') + 1..]
  }

  function TrimTrailingSlashes(s: string): (r: string)
    ensures |r| <= |s| && r == s[..|r|]
    decreases |s|
  {
    if |s| > 0 && s[|s| - 1] == '/' then TrimTrailingSlashes(s[..|s| - 1]) else s
  }

  predicate AllSlashes(s: string) {
    forall i :: 0 <= i < |s| ==> s[i] == '/'
  }

  /** `os.path.dirname(p)`: up to the last `/`, trailing slashes removed unless it is all slashes. */
  function Dirname(p: string): (r: string)
    ensures StartsWith(p, r)
  {
    var head := p[..RFind(p, '/') + 1];
    if head != "" && !AllSlashes(head) then
      var r := TrimTrailingSlashes(head);
      assert p[..|r|] == head[..|r|];
      r
    else
      head
  }

  /** `os.path.join(a, b)` for two components. */
  function PathJoin(a: string, b: string): string {
    if StartsWith(b, "/") then b
    else if a == "" || EndsWith(a, "/") then a + b
    else a + "/" + b
  }

  /** A non-empty name without `/` joined to any directory is the basename of the result. */
  lemma BasenameOfJoin(a: string, b: string)
    requires b != "" && '/' !in b
    ensures Basename(PathJoin(a, b)) == b
  {
    assert !StartsWith(b, "/") by {
      assert b[0] != '/';
    }
    if a == "" {
      assert PathJoin(a, b) == b;
      BasenameAfterSlash(b, b, 0);
    } else if EndsWith(a, "/") {
      assert PathJoin(a, b) == a + b;
      BasenameAfterSlash(a + b, b, |a|);
    } else {
      assert PathJoin(a, b) == a + "/" + b;
      BasenameAfterSlash(a + "/" + b, b, |a| + 1);
    }
  }

  /** A path that ends in a `/`-free `b`, right after a `/` or at the start, has basename `b`. */
  lemma BasenameAfterSlash(p: string, b: string, n: nat)
    requires '/' !in b && n + |b| == |p| && p[n..] == b
    requires n == 0 || p[n - 1] == '/'
    ensures Basename(p) == b
  {
    assert forall k :: n <= k < |p| ==> p[k] != '/' by {
      forall k | n <= k < |p| ensures p[k] != '/' {
        assert p[k] == b[k - n];
      }
    }
    var r := RFind(p, '/');
    assert r < n;
    assert r == n - 1;
  }
}
