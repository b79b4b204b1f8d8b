/** String helpers used by the path, argument and upload logic. */
module Text {

  /** Python's `s.rfind(c)`: the index of the last `c` in `s`, or -1. */
  function LastIndexOf(s: string, c: char): (r: int)
    ensures -1 <= r < |s|
  {
    if |s| == 0 then -1
    else if s[|s| - 1] == c then |s| - 1
    else LastIndexOf(s[..|s| - 1], c)
  }

  /** `rfind` finds an occurrence, and no later one; -1 exactly when there is none. */
  lemma {:induction false} LastIndexOfIsLast(s: string, c: char)
    ensures var r := LastIndexOf(s, c);
      && (r >= 0 ==> s[r] == c)
      && (forall k :: r < k < |s| ==> s[k] != c)
      && (r == -1 <==> c !in s)
  {
    if |s| > 0 && s[|s| - 1] != c {
      var init := s[..|s| - 1];
      LastIndexOfIsLast(init, c);
      forall k | LastIndexOf(s, c) < k < |s| ensures s[k] != c {
        if k < |s| - 1 {
          assert s[k] == init[k];
        }
      }
      if c in s {
        var k :| 0 <= k < |s| && s[k] == c;
        assert init[k] == c;
      }
    }
  }

  /** Appending text free of `c` does not move the last `c`. */
  lemma {:induction false} LastIndexOfAppend(u: string, t: string, c: char)
    requires c !in t
    ensures LastIndexOf(u + t, c) == LastIndexOf(u, c)
  {
    if |t| > 0 {
      var t' := t[..|t| - 1];
      assert (u + t)[..|u + t| - 1] == u + t';
      LastIndexOfAppend(u, t', c);
    } else {
      assert u + t == u;
    }
  }

  /** The text after the last `c`, as `s.rsplit(c, 1)[1]` gives it when `c in s`. */
  function AfterLast(s: string, c: char): string
  {
    s[LastIndexOf(s, c) + 1..]
  }

  /** `s.rsplit(c, 1)`: the text after the last `c` holds no `c`, and `s` is what precedes it, `c`, and it. */
  lemma AfterLastSplits(s: string, c: char)
    ensures c !in AfterLast(s, c)
    ensures c in s ==> var r := AfterLast(s, c);
      |r| < |s| && s == s[..|s| - |r| - 1] + [c] + r
    ensures c !in s ==> AfterLast(s, c) == s
  {
    var i := LastIndexOf(s, c);
    var r := AfterLast(s, c);
    assert r == s[i + 1..];
    LastIndexOfIsLast(s, c);
    assert c !in r by {
      forall k | 0 <= k < |r| ensures r[k] != c {
        assert r[k] == s[i + 1 + k];
      }
    }
    if i >= 0 {
      assert s == s[..i] + [c] + r by {
        assert s == s[..i + 1] + r;
        assert s[..i + 1] == s[..i] + [c];
      }
    }
  }

  /** Python's `str.lower()` restricted to ASCII letters. */
  function LowerChar(c: char): char
  {
    if 'A' <= c <= 'Z' then (c as int + 32) as char else c
  }

  /** `s.lower()` for ASCII text. */
  function Lower(s: string): string
  {
    seq(|s|, i requires 0 <= i < |s| => LowerChar(s[i]))
  }

  /** Lower-casing leaves no upper-case ASCII letter, and so a second pass changes nothing. */
  lemma LowerIsLower(s: string)
    ensures forall i :: 0 <= i < |s| ==> !('A' <= Lower(s)[i] <= 'Z')
    ensures Lower(Lower(s)) == Lower(s)
  {
  }

  /** `s.startswith(prefix)` */
  predicate StartsWith(s: string, prefix: string)
  {
    |prefix| <= |s| && s[..|prefix|] == prefix
  }

  /** `s.endswith(suffix)` */
  predicate EndsWith(s: string, suffix: string)
  {
    |suffix| <= |s| && s[|s| - |suffix|..] == suffix
  }

  /** Python's `xs.index(x)`: the first position of `x`. */
  function IndexOf(xs: seq<string>, x: string): (r: nat)
    requires x in xs
    ensures r < |xs| && xs[r] == x
    ensures forall k :: 0 <= k < r ==> xs[k] != x
  {
    if xs[0] == x then 0 else 1 + IndexOf(xs[1..], x)
  }
}
