/** The two functions of Python's `posixpath` the spider uses to place a
    script next to its document: `dirname` and the two-argument `join`, plus
    `basename` as their partner. */
module PosixPath {
  import opened Text

  predicate IsSlash(c: char) { c == '/' }

  predicate DoubleSlashAt(p: string, k: nat)
  {
    k + 1 < |p| && p[k] == '/' && p[k + 1] == '/'
  }

  /** No `//` anywhere in the path. */
  predicate NoDoubleSlash(p: string)
  {
    forall k :: 0 <= k < |p| ==> !DoubleSlashAt(p, k)
  }

  /** The shape of every `dirname` result: empty, only slashes, or not ending
      in a slash. */
  predicate DirShaped(d: string)
  {
    d == [] || AllChars(d, IsSlash) || d[|d| - 1] != '/'
  }

  /** Drops trailing slashes (`str.rstrip('/')`). */
  function RStripSlashes(h: string): (r: string)
    ensures StartsWith(h, r)
    ensures r == [] || r[|r| - 1] != '/'
    ensures AllChars(h[|r|..], IsSlash)
  {
    if |h| > 0 && h[|h| - 1] == '/' then RStripSlashes(h[..|h| - 1]) else h
  }

  /** The final component: everything after the last slash. */
  function Basename(p: string): (r: string)
    ensures '/' !in r
    ensures EndsWith(p, r)
  {
    p[AfterLast(p, '/')..]
  }

  /** `posixpath.dirname`: the text up to and including the last slash, with
      trailing slashes removed unless it consists of slashes only. */
  function Dirname(p: string): (r: string)
    ensures StartsWith(p, r)
    ensures DirShaped(r)
    ensures '/' !in p ==> r == []
    ensures '/' in p ==> r != []
    ensures |r| <= |p| - |Basename(p)|
    ensures AllChars(p[|r|..|p| - |Basename(p)|], IsSlash)
    ensures AllChars(r, IsSlash) ==> r == p[..|p| - |Basename(p)|]
  {
    var i := AfterLast(p, '/');
    var head := p[..i];
    assert '/' in p ==> i > 0 by {
      if '/' in p {
        var k :| 0 <= k < |p| && p[k] == '/';
      }
    }
    if head != [] && !AllChars(head, IsSlash) then
      var r := RStripSlashes(head);
      assert r != [] by {
        var k :| 0 <= k < |head| && head[k] != '/';
        assert forall m :: |r| <= m < |head| ==> head[m] == head[|r|..][m - |r|];
      }
      assert p[|r|..i] == head[|r|..];
      r
    else head
  }

  /** `posixpath.join(a, b)`: an absolute `b` replaces `a`; otherwise a slash
      separates them unless `a` is empty or already ends in one. */
  function Join(a: string, b: string): (r: string)
    ensures EndsWith(r, b)
  {
    if StartsWith(b, "/") then b
    else if a == [] || EndsWith(a, "/") then a + b
    else a + "/" + b
  }

  /** Splitting a path into directory and final component and joining them
      again gives the path back, when the path has no doubled slash. */
  lemma {:induction false} JoinDirnameBasename(p: string)
    requires NoDoubleSlash(p)
    ensures Join(Dirname(p), Basename(p)) == p
  {
    var head := p[..AfterLast(p, '/')];
    if head == [] || AllChars(head, IsSlash) {
      JoinSlashOnlyHead(p);
    } else {
      JoinDropsOneSlash(p);
    }
  }

  lemma JoinSlashOnlyHead(p: string)
    requires var head := p[..AfterLast(p, '/')]; head == [] || AllChars(head, IsSlash)
    ensures Join(Dirname(p), Basename(p)) == p
  {
    var i := AfterLast(p, '/');
    var head := p[..i];
    var b := p[i..];
    assert Dirname(p) == head;
    assert Basename(p) == b;
    NotRooted(b);
    if head != [] {
      EndsWithSlash(head);
    }
    assert Join(head, b) == head + b;
    assert p == head + b;
  }

  /** In a path without `//` whose directory part is not just slashes, the
      directory is the text before the last slash, and joining puts exactly
      that slash back. */
  lemma JoinDropsOneSlash(p: string)
    requires NoDoubleSlash(p)
    requires var head := p[..AfterLast(p, '/')]; head != [] && !AllChars(head, IsSlash)
    ensures Join(Dirname(p), Basename(p)) == p
  {
    var i := AfterLast(p, '/');
    var b := p[i..];
    var d := p[..i - 1];
    assert Dirname(p) == d by {
      DirnameDropsLastSlash(p);
    }
    assert Basename(p) == b;
    NotRooted(b);
    assert d != [] && d[|d| - 1] != '/' by {
      DirnameDropsLastSlash(p);
    }
    NotEndsWithSlash(d);
    assert Join(d, b) == d + "/" + b;
    assert p == d + "/" + b by {
      assert p[i - 1] == '/';
      assert p == p[..i - 1] + [p[i - 1]] + p[i..];
    }
  }

  /** Under the same conditions, `dirname` is the text before the last slash,
      which does not itself end in a slash. */
  lemma DirnameDropsLastSlash(p: string)
    requires NoDoubleSlash(p)
    requires var head := p[..AfterLast(p, '/')]; head != [] && !AllChars(head, IsSlash)
    ensures var i := AfterLast(p, '/'); Dirname(p) == p[..i - 1] && p[..i - 1] != [] && p[i - 2] != '/'
  {
    var i := AfterLast(p, '/');
    var head := p[..i];
    var k :| 0 <= k < |head| && head[k] != '/';
    assert p[i - 1] == '/';
    assert i >= 2;
    assert !DoubleSlashAt(p, i - 2);
    var d := head[..i - 1];
    assert head[..|head| - 1] == d;
    assert RStripSlashes(head) == RStripSlashes(d);
    assert RStripSlashes(d) == d;
    assert d == p[..i - 1];
  }

  lemma NotRooted(b: string)
    requires '/' !in b
    ensures !StartsWith(b, "/")
  {
    if b != [] {
      assert b[..1][0] == b[0];
    }
  }

  lemma EndsWithSlash(h: string)
    requires h != [] && h[|h| - 1] == '/'
    ensures EndsWith(h, "/")
  {
    assert h[|h| - 1..] == [h[|h| - 1]];
  }

  lemma NotEndsWithSlash(h: string)
    requires h != [] && h[|h| - 1] != '/'
    ensures !EndsWith(h, "/")
  {
    assert h[|h| - 1..][0] == h[|h| - 1];
  }

  /** Joining a directory-shaped path with a plain file name and splitting the
      result recovers both parts: a resolved script lies in the directory it
      was resolved against. */
  lemma DirnameOfJoin(a: string, b: string)
    requires DirShaped(a)
    requires b != [] && '/' !in b
    ensures Dirname(Join(a, b)) == a
    ensures Basename(Join(a, b)) == b
  {
    var j := Join(a, b);
    assert b[0] != '/';
    assert !StartsWith(b, "/");
    if a == [] {
      assert j == b;
      assert AfterLast(j, '/') == 0;
    } else if EndsWith(a, "/") {
      assert AllChars(a, IsSlash);
      assert j == a + b;
      AfterLastOfConcat(a, b);
      assert j[..|a|] == a;
    } else {
      assert j == a + "/" + b;
      AfterLastOfConcat(a + "/", b);
      var head := j[..|a| + 1];
      assert head == a + "/";
      assert head[|a| - 1] != '/';
      assert head != [] && !AllChars(head, IsSlash);
      assert head[..|head| - 1] == a;
      assert RStripSlashes(head) == RStripSlashes(a);
    }
  }

  lemma AfterLastOfConcat(a: string, b: string)
    requires a != [] && a[|a| - 1] == '/'
    requires '/' !in b
    ensures AfterLast(a + b, '/') == |a|
  {
    var s := a + b;
    assert s[|a| - 1] == '/';
    assert forall k :: |a| <= k < |s| ==> s[k] == b[k - |a|];
  }
}
