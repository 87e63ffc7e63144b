/** Strings and slash-separated paths, as the Go standard library treats them. */
module Paths {

  predicate HasSuffix(s: string, t: string) {
    |t| <= |s| && s[|s| - |t|..] == t
  }

  function TrimSuffix(s: string, t: string): string {
    if HasSuffix(s, t) then s[..|s| - |t|] else s
  }

  /** The byte order of Go strings. */
  predicate StrLess(a: string, b: string)
    decreases |a|
  {
    && b != ""
    && (a == "" || a[0] < b[0] || (a[0] == b[0] && StrLess(a[1..], b[1..])))
  }

  function TrimTrailingSlashes(p: string): (t: string)
    ensures t == "" || t[|t| - 1] != '/'
    decreases |p|
  {
    if |p| > 0 && p[|p| - 1] == '/' then TrimTrailingSlashes(p[..|p| - 1]) else p
  }

  /** What follows the last slash. */
  function LastElement(p: string): (e: string)
    ensures |e| <= |p| && p[|p| - |e|..] == e
    ensures '/' !in e
    ensures |e| < |p| ==> p[|p| - |e| - 1] == '/'
    decreases |p|
  {
    if p == "" || p[|p| - 1] == '/' then "" else LastElement(p[..|p| - 1]) + [p[|p| - 1]]
  }

  /** Go's path.Base. */
  function Base(p: string): string {
    if p == "" then "."
    else
      var e := LastElement(TrimTrailingSlashes(p));
      if e == "" then "/" else e
  }

  /** Go's filepath.Join of a clean directory and an ordinary file name. */
  function Join(dir: string, name: string): string {
    dir + "/" + name
  }

  /** A file name: not empty and without a directory part. */
  predicate Plain(name: string) {
    name != "" && '/' !in name
  }

  /** The path ends in its own last element: there is one and no slash follows it. */
  predicate NamesAFile(p: string) {
    p != "" && p[|p| - 1] != '/'
  }

  lemma {:induction false} LastElementOfName(head: string, name: string)
    requires '/' !in name && (head == "" || head[|head| - 1] == '/')
    ensures LastElement(head + name) == name
    decreases |name|
  {
    var p := head + name;
    if name == "" {
      assert p == head;
    } else {
      var n := |name| - 1;
      assert p[..|p| - 1] == head + name[..n] && p[|p| - 1] == name[n];
      LastElementOfName(head, name[..n]);
    }
  }

  lemma BaseOfPlain(name: string)
    requires Plain(name)
    ensures Base(name) == name
  {
    LastElementOfName("", name);
    assert "" + name == name;
    assert TrimTrailingSlashes(name) == name;
  }

  lemma BaseOfJoin(dir: string, name: string)
    requires Plain(name)
    ensures Base(Join(dir, name)) == name
    ensures NamesAFile(Join(dir, name))
  {
    var p := Join(dir, name);
    LastElementOfName(dir + "/", name);
    assert p[|p| - 1] == name[|name| - 1];
    assert TrimTrailingSlashes(p) == p;
  }

  lemma BaseOfFile(p: string)
    requires NamesAFile(p)
    ensures Plain(Base(p))
    ensures HasSuffix(p, Base(p))
    ensures |Base(p)| < |p| ==> p[|p| - |Base(p)| - 1] == '/'
  {
    assert TrimTrailingSlashes(p) == p;
    assert LastElement(p) != "";
  }

  lemma LongSuffixHasSlash(p: string, name: string)
    requires NamesAFile(p) && HasSuffix(p, name) && |name| > |Base(p)|
    ensures '/' in name
  {
    BaseOfFile(p);
    assert name[|name| - |Base(p)| - 1] == p[|p| - |Base(p)| - 1];
  }

  /** A name without slashes cannot straddle the directory part of a path. */
  lemma SuffixStaysInBase(p: string, name: string)
    requires NamesAFile(p) && '/' !in name
    ensures HasSuffix(p, name) <==> HasSuffix(Base(p), name)
  {
    hide Base;
    BaseOfFile(p);
    var b := Base(p);
    if HasSuffix(p, name) && |name| > |b| {
      LongSuffixHasSlash(p, name);
    } else if |name| <= |b| {
      assert b[|b| - |name|..] == p[|p| - |name|..];
    }
  }

  lemma {:induction false} StrLessIrreflexive(a: string)
    ensures !StrLess(a, a)
    decreases |a|
  {
    if a != "" {
      StrLessIrreflexive(a[1..]);
    }
  }

  lemma {:induction false} StrLessTransitive(a: string, b: string, c: string)
    requires StrLess(a, b) && StrLess(b, c)
    ensures StrLess(a, c)
    decreases |a|
  {
    if a != "" && a[0] == b[0] && b[0] == c[0] {
      StrLessTransitive(a[1..], b[1..], c[1..]);
    }
  }

  lemma {:induction false} StrLessTotal(a: string, b: string)
    ensures a == b || StrLess(a, b) || StrLess(b, a)
    decreases |a|
  {
    if a != "" && b != "" && a[0] == b[0] {
      StrLessTotal(a[1..], b[1..]);
      assert a == [a[0]] + a[1..] && b == [b[0]] + b[1..];
    }
  }

  /** Strings with heads of one length compare by the heads first. */
  lemma {:induction false} StrLessConcat(a: string, a': string, b: string, b': string)
    requires |a| == |b|
    ensures StrLess(a + a', b + b') <==> StrLess(a, b) || (a == b && StrLess(a', b'))
    decreases |a|
  {
    if a == "" {
      assert a + a' == a' && b + b' == b';
    } else {
      StrLessConcat(a[1..], a', b[1..], b');
      assert (a + a')[1..] == a[1..] + a' && (b + b')[1..] == b[1..] + b';
      assert a == [a[0]] + a[1..] && b == [b[0]] + b[1..];
    }
  }
}
