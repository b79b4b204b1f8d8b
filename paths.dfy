/**
 * The parts of Python's `pathlib` (PurePosixPath) and `os.path.join` that the
 * converter and the upload handler use. Path strings are taken in the form
 * `str(Path(...))` prints them: separators not doubled, no trailing separator
 * except for the root, no `.` component except the whole path ".".
 */
module Paths {
  import opened Wrappers
  import opened Text

  const DocxSuffix := ".docx"

  /** Everything up to and including the last separator. */
  function DirPrefix(p: string): string
  {
    p[..LastIndexOf(p, '/') + 1]
  }

  /** `Path(p).name`: the last component, empty for the root and for ".". */
  function Name(p: string): string
  {
    var last := p[LastIndexOf(p, '/') + 1..];
    if last == "." then "" else last
  }

  /** A name holds no separator, and a non-empty one is what follows the directory prefix. */
  lemma NameSplits(p: string)
    ensures '/' !in Name(p)
    ensures Name(p) != "" ==> p == DirPrefix(p) + Name(p)
  {
    AfterLastSplits(p, '/');
    assert AfterLast(p, '/') == p[LastIndexOf(p, '/') + 1..];
  }

  /** `Path(name).suffix` (pathlib up to Python 3.13): from the last dot on, unless that dot is the first or the last character. */
  function Suffix(name: string): string
  {
    var i := LastIndexOf(name, '.');
    if 0 < i < |name| - 1 then name[i..] else ""
  }

  /**
   * A non-empty suffix is a dot followed by at least one character and no
   * further dot, and is never the whole name; a name whose only dot is its
   * first character, or without a dot, has none.
   */
  lemma SuffixShape(name: string)
    ensures var x := Suffix(name);
      x != "" ==> x[0] == '.' && 2 <= |x| < |name| && '.' !in x[1..]
    ensures '.' !in name ==> Suffix(name) == ""
    ensures |name| > 0 && name[0] == '.' && '.' !in name[1..] ==> Suffix(name) == ""
  {
    LastIndexOfIsLast(name, '.');
    var i := LastIndexOf(name, '.');
    var x := Suffix(name);
    if x != "" {
      assert x == name[i..];
      forall k | 0 <= k < |x| - 1 ensures x[1..][k] != '.' {
        assert x[1..][k] == name[i + 1 + k];
      }
    }
    if |name| > 0 && name[0] == '.' && '.' !in name[1..] {
      forall k | 0 < k < |name| ensures name[k] != '.' {
        assert name[k] == name[1..][k - 1];
      }
    }
  }

  /** `Path(name).stem`: the name without its suffix. */
  function Stem(name: string): (s: string)
    ensures name == s + Suffix(name)
    ensures name != "" ==> s != ""
  {
    var i := LastIndexOf(name, '.');
    assert 0 < i < |name| - 1 ==> Suffix(name) == name[i..];
    name[..|name| - |Suffix(name)|]
  }

  /**
   * `Path(p).with_suffix('.docx')`; None where pathlib raises ValueError because
   * the path has an empty name.
   */
  function WithDocxSuffix(p: string): (r: Option<string>)
    ensures r.Some? <==> Name(p) != ""
  {
    var name := Name(p);
    if name == "" then None else Some(DirPrefix(p) + Stem(name) + DocxSuffix)
  }

  /** `Path(folder) / name` for a name without separators. */
  function Join(folder: string, name: string): string
  {
    if folder == "" || folder == "." then name
    else if EndsWith(folder, "/") then folder + name
    else folder + "/" + name
  }

  /** `os.path.join(a, b)` for two components. */
  function OsJoin(a: string, b: string): string
  {
    if StartsWith(b, "/") then b
    else if a == "" || EndsWith(a, "/") then a + b
    else a + "/" + b
  }

  /** Appending separator-free text to a directory prefix keeps that prefix. */
  lemma {:induction false} DirPrefixAppend(p: string, t: string)
    requires '/' !in t
    ensures LastIndexOf(DirPrefix(p) + t, '/') == |DirPrefix(p)| - 1
    ensures DirPrefix(DirPrefix(p) + t) == DirPrefix(p)
  {
    var d := DirPrefix(p);
    LastIndexOfIsLast(p, '/');
    LastIndexOfAppend(d, t, '/');
    if |d| > 0 {
      assert d[|d| - 1] == '/';
    }
    assert (d + t)[..|d|] == d;
  }

  /** A name's stem followed by ".docx" has ".docx" as its suffix and keeps the stem. */
  lemma DocxNameParts(stem: string)
    requires stem != "" && '/' !in stem
    ensures Suffix(stem + DocxSuffix) == DocxSuffix
    ensures Stem(stem + DocxSuffix) == stem
  {
    var m := stem + DocxSuffix;
    assert m == (stem + ".") + "docx";
    LastIndexOfAppend(stem + ".", "docx", '.');
    assert LastIndexOf(m, '.') == |stem|;
    assert m[|stem|..] == DocxSuffix;
  }

  /** Separator-free text after a directory prefix is the name of the result. */
  lemma NameAfterDirPrefix(p: string, t: string)
    requires '/' !in t && t != "" && t != "."
    ensures Name(DirPrefix(p) + t) == t
    ensures DirPrefix(DirPrefix(p) + t) == DirPrefix(p)
  {
    var q := DirPrefix(p) + t;
    DirPrefixAppend(p, t);
    assert q[|DirPrefix(p)|..] == t;
  }

  /** The stem of a name holds no separator when the name holds none. */
  lemma StemHasNoSeparator(name: string)
    requires '/' !in name
    ensures '/' !in Stem(name)
  {
    var stem := Stem(name);
    forall k | 0 <= k < |stem| ensures stem[k] != '/' {
      assert stem[k] == name[k];
    }
  }

  /**
   * `with_suffix('.docx')` keeps the directory and the stem of the name and
   * replaces its suffix by ".docx"; applied again it changes nothing.
   */
  lemma WithDocxSuffixReplacesSuffix(p: string)
    requires Name(p) != ""
    ensures var q := WithDocxSuffix(p).value;
      && DirPrefix(q) == DirPrefix(p)
      && Name(q) == Stem(Name(p)) + DocxSuffix
      && Stem(Name(q)) == Stem(Name(p))
      && Suffix(Name(q)) == DocxSuffix
      && WithDocxSuffix(q) == Some(q)
  {
    var stem := Stem(Name(p));
    NameSplits(p);
    StemHasNoSeparator(Name(p));
    var nq := stem + DocxSuffix;
    assert '/' !in nq;
    var q := DirPrefix(p) + nq;
    assert WithDocxSuffix(p).value == q;
    NameAfterDirPrefix(p, nq);
    DocxNameParts(stem);
  }

  /** The name `with_suffix('.docx')` gives is the stem with ".docx": a proper name without separators. */
  lemma DocxName(p: string)
    requires Name(p) != ""
    ensures Name(WithDocxSuffix(p).value) == Stem(Name(p)) + DocxSuffix
    ensures var n := Stem(Name(p)) + DocxSuffix; '/' !in n && n != "" && n != "."
  {
    WithDocxSuffixReplacesSuffix(p);
    NameSplits(p);
    StemHasNoSeparator(Name(p));
  }

  /** A proper name placed after nothing or after a separator is the name of the result. */
  lemma NameAfterSeparator(u: string, name: string)
    requires '/' !in name && name != "" && name != "."
    requires u == "" || u[|u| - 1] == '/'
    ensures Name(u + name) == name
  {
    LastIndexOfAppend(u, name, '/');
    if u == "" {
      assert u + name == name;
    } else {
      assert (u + name)[|u|..] == name;
    }
  }

  /** `Path(folder) / name` lies in `folder` and its name is `name` itself. */
  lemma JoinName(folder: string, name: string)
    requires '/' !in name && name != "" && name != "."
    ensures Name(Join(folder, name)) == name
    ensures folder != "" && folder != "." ==> StartsWith(Join(folder, name), folder)
    ensures folder != "" && folder != "." ==> DirPrefix(Join(folder, name)) == folder || DirPrefix(Join(folder, name)) == folder + "/"
  {
    if folder == "" || folder == "." {
      NameAfterSeparator("", name);
      assert "" + name == name;
    } else if EndsWith(folder, "/") {
      assert folder[|folder| - 1] == '/';
      NameAfterSeparator(folder, name);
    } else {
      NameAfterSeparator(folder + "/", name);
      assert Join(folder, name) == (folder + "/") + name;
    }
  }

  /**
   * `os.path.join(a, b)` for a relative `b` starts with `a` and ends with `b`;
   * when `b` is a proper name, that name is the result's name.
   */
  lemma OsJoinName(a: string, b: string)
    ensures !StartsWith(b, "/") ==> StartsWith(OsJoin(a, b), a) && EndsWith(OsJoin(a, b), b)
    ensures '/' !in b && b != "" && b != "." ==> Name(OsJoin(a, b)) == b
  {
    var j := OsJoin(a, b);
    if !StartsWith(b, "/") {
      if a == "" || EndsWith(a, "/") {
        assert j == a + b;
        assert j[..|a|] == a && j[|j| - |b|..] == b;
      } else {
        assert j == (a + "/") + b;
        assert j[..|a|] == a && j[|j| - |b|..] == b;
      }
    }
    if '/' !in b && b != "" && b != "." {
      assert b[0] != '/';
      if a == "" {
        NameAfterSeparator("", b);
        assert "" + b == b;
      } else if EndsWith(a, "/") {
        assert a[|a| - 1] == '/';
        NameAfterSeparator(a, b);
      } else {
        NameAfterSeparator(a + "/", b);
        assert j == (a + "/") + b;
      }
    }
  }
}
