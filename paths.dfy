/** File-path helpers: System.IO.Path.GetFileName, GetExtension,
    GetFileNameWithoutExtension and Combine, and Python's os.path.join and
    os.path.basename. Both '/' and '\' count as directory separators when a path is
    taken apart (the Windows rule); Combine joins with '/'. */
module Paths {
  import opened Text

  predicate IsSeparator(c: char) {
    c == '/' || c == '\\'
  }

  predicate NoSeparators(s: string) {
    forall i :: 0 <= i < |s| ==> !IsSeparator(s[i])
  }

  lemma NoSeparatorsAppend(a: string, b: string)
    requires NoSeparators(a) && NoSeparators(b)
    ensures NoSeparators(a + b)
  {
    forall i | 0 <= i < |a + b|
      ensures !IsSeparator((a + b)[i])
    {
      if i >= |a| {
        assert (a + b)[i] == b[i - |a|];
      }
    }
  }

  /** Every end of a separator-free string is separator-free. */
  lemma NoSeparatorsFrom(s: string, k: nat)
    requires NoSeparators(s) && k <= |s|
    ensures NoSeparators(s[k..])
  {
    assert forall i :: 0 <= i < |s| - k ==> s[k..][i] == s[k + i];
  }

  /** Path.GetFileName: everything after the last directory separator. */
  function GetFileName(p: string): string {
    if p == [] then []
    else if IsSeparator(p[|p| - 1]) then []
    else GetFileName(p[..|p| - 1]) + [p[|p| - 1]]
  }

  /** The file name is a separator-free suffix of the path, preceded by a separator
      unless it is the whole path. */
  lemma {:induction false} FileNameShape(p: string)
    ensures var r := GetFileName(p);
            && |r| <= |p| && r == p[|p| - |r|..]
            && NoSeparators(r)
            && (|r| < |p| ==> IsSeparator(p[|p| - |r| - 1]))
  {
    if p != [] && !IsSeparator(p[|p| - 1]) {
      var init := p[..|p| - 1];
      FileNameShape(init);
      var r := GetFileName(init);
      SliceSnoc(p, |init| - |r|);
      NoSeparatorsAppend(r, [p[|p| - 1]]);
      if |r| < |init| {
        assert p[|init| - |r| - 1] == init[|init| - |r| - 1];
      }
    }
  }

  /** A slice that runs to the end is the slice of all but the last element, then the last. */
  lemma SliceSnoc(p: string, m: nat)
    requires m < |p|
    ensures p[m..] == p[..|p| - 1][m..] + [p[|p| - 1]]
  {
  }

  /** Index of the last '.' in a name, or -1 when it has none. */
  function LastDot(name: string): (k: int)
    ensures -1 <= k < |name|
  {
    if name == [] then -1
    else if name[|name| - 1] == '.' then |name| - 1
    else LastDot(name[..|name| - 1])
  }

  /** The index found holds a '.', and no later character is one. */
  lemma {:induction false} LastDotShape(name: string)
    ensures var k := LastDot(name);
            && (k >= 0 ==> name[k] == '.')
            && forall j :: k < j < |name| ==> name[j] != '.'
  {
    if name != [] && name[|name| - 1] != '.' {
      var init := name[..|name| - 1];
      LastDotShape(init);
      assert forall j :: 0 <= j < |init| ==> init[j] == name[j];
    }
  }

  /** The extension part of a file name: from its last '.' on, or empty when the name has
      no '.' or ends with one. */
  function NameExtension(name: string): string {
    var k := LastDot(name);
    if k < 0 || k == |name| - 1 then [] else name[k..]
  }

  /** An extension is empty or a '.' followed by at least one character other than '.',
      and the name ends with it. */
  lemma NameExtensionShape(name: string)
    ensures var r := NameExtension(name);
            && (r == [] || (|r| >= 2 && r[0] == '.' && EndsWith(name, r)))
            && forall i :: 0 < i < |r| ==> r[i] != '.'
  {
    LastDotShape(name);
  }

  /** A file name up to its last '.'. */
  function NameStem(name: string): string {
    var k := LastDot(name);
    if k < 0 then name else name[..k]
  }

  /** The stem is a prefix of the name. */
  lemma NameStemShape(name: string)
    ensures StartsWith(name, NameStem(name))
  {
  }

  /** Path.GetExtension. */
  function GetExtension(p: string): string {
    NameExtension(GetFileName(p))
  }

  /** Path.GetFileNameWithoutExtension. */
  function GetFileNameWithoutExtension(p: string): string {
    NameStem(GetFileName(p))
  }

  /** Name without extension followed by the extension is the file name, unless the name
      ends with a bare '.', which both drop. */
  lemma StemPlusExtension(name: string)
    requires !EndsWith(name, ".")
    ensures NameStem(name) + NameExtension(name) == name
  {
    LastDotShape(name);
    var k := LastDot(name);
    if k < 0 {
      assert name + [] == name;
    } else if k < |name| - 1 {
      assert name[..k] + name[k..] == name;
    }
  }

  /** Path.Combine(a, b): b when it is rooted or a is empty, a when b is empty. */
  function Combine(a: string, b: string): string {
    if b == [] then a
    else if b[0] == '/' then b
    else if a == [] then b
    else if a[|a| - 1] == '/' then a + b
    else a + "/" + b
  }

  /** Python os.path.join(a, b). */
  function PyJoin(a: string, b: string): string {
    if b != [] && b[0] == '/' then b
    else if a == [] || a[|a| - 1] == '/' then a + b
    else a + "/" + b
  }

  /** Python os.path.basename: everything after the last '/'. */
  function PyBasename(p: string): string {
    if p == [] then []
    else if p[|p| - 1] == '/' then []
    else PyBasename(p[..|p| - 1]) + [p[|p| - 1]]
  }

  /** The basename is the longest end of the path without a '/'. */
  lemma {:induction false} PyBasenameShape(p: string)
    ensures var r := PyBasename(p);
            && |r| <= |p| && r == p[|p| - |r|..]
            && (forall i :: 0 <= i < |r| ==> r[i] != '/')
            && (|r| < |p| ==> p[|p| - |r| - 1] == '/')
  {
    if p != [] && p[|p| - 1] != '/' {
      var init := p[..|p| - 1];
      PyBasenameShape(init);
      var r := PyBasename(init);
      SliceSnoc(p, |init| - |r|);
      assert forall i :: 0 <= i < |r| ==> (r + [p[|p| - 1]])[i] == r[i];
      if |r| < |init| {
        assert p[|init| - |r| - 1] == init[|init| - |r| - 1];
      }
    }
  }
}
