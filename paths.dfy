// File-system paths as the scripts build them with pathlib.
//
// A path is its text in normal form (no trailing '/', no "//", no "."
// components); Path.resolve() and expanduser() are the identity on it.

module Paths {
  import opened Wrappers

  /** Path(dir) / rel: an absolute right-hand side replaces the directory. */
  function Child(dir: string, rel: string): string
  {
    if |rel| > 0 && rel[0] == '/' then rel else dir + "/" + rel
  }

  /** The position of the last c in s, or -1 (str.rfind). */
  function LastIndex(s: string, c: char): (r: int)
    ensures -1 <= r < |s|
    ensures r >= 0 ==> s[r] == c
  {
    if |s| == 0 then -1
    else if s[|s| - 1] == c then |s| - 1
    else LastIndex(s[..|s| - 1], c)
  }

  /** No c follows the position LastIndex finds. */
  lemma {:induction false} LastIndexIsLast(s: string, c: char)
    ensures forall k :: LastIndex(s, c) < k < |s| ==> s[k] != c
  {
    if |s| > 0 && s[|s| - 1] != c {
      var t := s[..|s| - 1];
      LastIndexIsLast(t, c);
      forall k | LastIndex(s, c) < k < |s| ensures s[k] != c {
        if k < |t| { assert s[k] == t[k]; }
      }
    }
  }

  /** A c at j with none after it is the last c. */
  lemma {:induction false} LastIndexUnique(s: string, c: char, j: int)
    requires -1 <= j < |s| && (j >= 0 ==> s[j] == c)
    requires forall k :: j < k < |s| ==> s[k] != c
    ensures LastIndex(s, c) == j
  {
    LastIndexIsLast(s, c);
  }

  /** PurePath.name: the final component. */
  function Name(p: string): (n: string)
    ensures |n| <= |p| && n == p[|p| - |n|..]
  {
    p[LastIndex(p, '/') + 1..]
  }

  /** The name holds no '/'. */
  lemma NameHasNoSlash(p: string)
    ensures '/' !in Name(p)
  {
    var i := LastIndex(p, '/');
    LastIndexIsLast(p, '/');
    var t := Name(p);
    forall j | 0 <= j < |t| ensures t[j] != '/' {
      assert t[j] == p[i + 1 + j];
    }
  }

  /** PurePath.suffix: the final component's text from its last '.', when
      that dot is neither the first nor the last character; else "". */
  function Suffix(p: string): (s: string)
    ensures s == "" || (s[0] == '.' && 2 <= |s| < |Name(p)| && s == Name(p)[|Name(p)| - |s|..])
  {
    var n := Name(p);
    var i := LastIndex(n, '.');
    if 0 < i < |n| - 1 then n[i..] else ""
  }

  /** A suffix has exactly one '.', its first character. */
  lemma SuffixHasOneDot(p: string)
    requires Suffix(p) != ""
    ensures '.' !in Suffix(p)[1..]
  {
    var n := Name(p);
    var i := LastIndex(n, '.');
    LastIndexIsLast(n, '.');
    var t := Suffix(p)[1..];
    forall j | 0 <= j < |t| ensures t[j] != '.' {
      assert t[j] == n[i + 1 + j];
    }
  }

  /** PurePath.with_suffix(suffix) for a well-formed suffix ("" or a dot
      followed by text without '/'): replaces the suffix, or appends when
      there is none; a path with an empty name raises ValueError (None). */
  function WithSuffix(p: string, suffix: string): (r: Option<string>)
    ensures r.Some? <==> Name(p) != ""
  {
    if Name(p) == "" then None
    else Some(p[..|p| - |Suffix(p)|] + suffix)
  }

  /** The last c of a + [c] + b, when b holds none, is the one between them. */
  lemma {:induction false} LastIndexAt(a: string, b: string, c: char)
    requires c !in b
    ensures LastIndex(a + [c] + b, c) == |a|
  {
    var s := a + [c] + b;
    if |b| > 0 {
      var b' := b[..|b| - 1];
      assert s[|s| - 1] == b[|b| - 1];
      assert s[..|s| - 1] == a + [c] + b';
      LastIndexAt(a, b', c);
    }
  }

  /** A string without c has no last c. */
  lemma LastIndexAbsent(s: string, c: char)
    requires c !in s
    ensures LastIndex(s, c) == -1
  {
    LastIndexUnique(s, c, -1);
  }

  /** The name of dir/rest, for a rest without '/', is rest. */
  lemma NameAfterSlash(dir: string, rest: string)
    requires '/' !in rest
    ensures Name(dir + "/" + rest) == rest
  {
    var p := dir + "/" + rest;
    assert p == dir + ['/'] + rest;
    LastIndexAt(dir, rest, '/');
    assert p[|dir| + 1..] == rest;
  }

  /** The suffix of dir/stem.iso, for a stem with neither '/' nor '.', is ".iso". */
  lemma IsoSuffix(dir: string, stem: string)
    requires |stem| > 0 && '/' !in stem && '.' !in stem
    ensures Suffix(dir + "/" + stem + ".iso") == ".iso"
  {
    IsoNameHasNoSlash(stem);
    assert dir + "/" + stem + ".iso" == dir + "/" + (stem + ".iso");
    NameAfterSlash(dir, stem + ".iso");
    IsoLastDot(stem);
  }

  /** stem.iso holds no '/' when the stem holds none. */
  lemma IsoNameHasNoSlash(stem: string)
    requires '/' !in stem
    ensures '/' !in stem + ".iso"
  {
    var n := stem + ".iso";
    forall k | 0 <= k < |n| ensures n[k] != '/' {
      if k < |stem| { assert n[k] == stem[k]; }
    }
  }

  /** The last '.' of stem.iso, for a stem without '.', opens ".iso". */
  lemma IsoLastDot(stem: string)
    requires '.' !in stem
    ensures LastIndex(stem + ".iso", '.') == |stem|
    ensures (stem + ".iso")[|stem|..] == ".iso"
  {
    IsoExtension();
    DotTail(stem, "iso", ".iso");
  }

  /** ".iso" is a dot followed by a dot-free extension. */
  lemma IsoExtension()
    ensures '.' !in "iso" && ".iso" == ['.'] + "iso"
  {
  }

  /** The last '.' of stem + tail, for tail == "." + ext with no '.' after
      the first character and none in the stem, opens tail. */
  lemma DotTail(stem: string, ext: string, tail: string)
    requires '.' !in stem && '.' !in ext && tail == ['.'] + ext
    ensures LastIndex(stem + tail, '.') == |stem|
    ensures (stem + tail)[|stem|..] == tail
  {
    assert stem + tail == stem + ['.'] + ext;
    LastIndexAt(stem, ext, '.');
  }

  /** dir/stem.iso with its suffix dropped is dir/stem. */
  lemma DropIsoSuffix(dir: string, stem: string)
    requires |stem| > 0 && '/' !in stem && '.' !in stem
    ensures WithSuffix(dir + "/" + stem + ".iso", "") == Some(dir + "/" + stem)
  {
    var p := dir + "/" + stem + ".iso";
    IsoSuffix(dir, stem);
    assert p[..|p| - 4] + "" == dir + "/" + stem;
  }

  /** dir/stem has no suffix, so with_suffix(".iso") appends it. */
  lemma PutIsoSuffix(dir: string, stem: string)
    requires |stem| > 0 && '/' !in stem && '.' !in stem
    ensures WithSuffix(dir + "/" + stem, ".iso") == Some(dir + "/" + stem + ".iso")
  {
    var q := dir + "/" + stem;
    NameAfterSlash(dir, stem);
    LastIndexAbsent(stem, '.');
    assert Suffix(q) == "";
    assert q[..|q| - 0] == q;
  }
}
