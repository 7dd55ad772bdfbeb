/** The PHP built-ins and language rules the chunked-upload code relies on:
    nullable values and `??`, `strtolower`, a one-character `str_replace`,
    `basename`/`pathinfo`, and the truthiness of a string. */
module Php {

  /** A PHP value that may be `null`. */
  datatype Option<+T> = None | Some(value: T) {
    /** The `??` operator: this value unless it is null, else `fallback`. */
    function Coalesce(fallback: T): (r: T)
      ensures Some? ==> r == value
      ensures None? ==> r == fallback
    {
      match this
      case Some(v) => v
      case None => fallback
    }
  }

  predicate IsAsciiUpper(c: char) {
    'A' <= c <= 'Z'
  }

  /** `strtolower` on one character: since PHP 8.2 only A-Z change. */
  function LowerChar(c: char): (r: char)
    ensures !IsAsciiUpper(r)
    ensures IsAsciiUpper(c) || r == c
    ensures r == ' ' <==> c == ' '
  {
    if IsAsciiUpper(c) then (c as int + 32) as char else c
  }

  /** `strtolower($s)`. */
  function StrToLower(s: string): (r: string)
    ensures |r| == |s|
    ensures forall i :: 0 <= i < |s| ==> r[i] == LowerChar(s[i])
  {
    if s == [] then [] else [LowerChar(s[0])] + StrToLower(s[1..])
  }

  /** `str_replace($from, $to, $s)` for one-character search and replacement strings. */
  function ReplaceChar(s: string, from: char, to: char): (r: string)
    ensures |r| == |s|
    ensures forall i :: 0 <= i < |s| ==> r[i] == if s[i] == from then to else s[i]
  {
    if s == [] then [] else [if s[0] == from then to else s[0]] + ReplaceChar(s[1..], from, to)
  }

  /** `strrpos($s, $c)`: the index of the last `c` in `s`, with -1 standing for false. */
  function LastIndexOf(s: string, c: char): (k: int)
    ensures -1 <= k < |s|
    ensures k >= 0 ==> s[k] == c
    ensures forall j :: k < j < |s| ==> s[j] != c
  {
    if s == [] then -1
    else if s[|s| - 1] == c then |s| - 1
    else LastIndexOf(s[..|s| - 1], c)
  }

  /** In `u + [c] + t`, when `t` has no `c`, the last `c` is the one after `u`. */
  lemma {:induction false} LastIndexOfSplit(u: string, t: string, c: char)
    requires c !in t
    ensures LastIndexOf(u + [c] + t, c) == |u|
  {
    var s := u + [c] + t;
    if t != [] {
      var init := t[..|t| - 1];
      assert s[|s| - 1] == t[|t| - 1];
      assert s[..|s| - 1] == u + [c] + init;
      LastIndexOfSplit(u, init, c);
    }
  }

  /** `basename($p)` for a path that does not end in a slash: what follows the last slash. */
  function Basename(p: string): (r: string)
    ensures '/' !in r
    ensures '/' !in p ==> r == p
    ensures '/' in p ==> |r| < |p| && p[|p| - |r| - 1] == '/' && r == p[|p| - |r|..]
  {
    var k := LastIndexOf(p, '/');
    assert '/' in p ==> k >= 0;
    p[k + 1..]
  }

  /** `pathinfo($p, PATHINFO_EXTENSION)`: what follows the last dot of the
      base name, or the empty string when the base name has no dot. */
  function PathinfoExtension(p: string): (r: string)
    ensures '.' !in r && '/' !in r
    ensures '.' !in Basename(p) ==> r == ""
  {
    var b := Basename(p);
    var dot := LastIndexOf(b, '.');
    if dot >= 0 then b[dot + 1..] else ""
  }

  /** `pathinfo($p, PATHINFO_FILENAME)`: the base name up to its last dot. */
  function PathinfoFilename(p: string): (r: string)
    ensures '.' in Basename(p) ==> r + "." + PathinfoExtension(p) == Basename(p)
    ensures '.' !in Basename(p) ==> r == Basename(p)
  {
    var b := Basename(p);
    var dot := LastIndexOf(b, '.');
    if dot >= 0 then
      assert b == b[..dot] + "." + b[dot + 1..];
      b[..dot]
    else b
  }

  /** The extension of dir/stem.ext is ext. */
  lemma ExtensionOf(dir: string, stem: string, ext: string)
    requires '/' !in stem && '/' !in ext && '.' !in ext
    ensures PathinfoExtension(dir + "/" + (stem + "." + ext)) == ext
  {
    var base := stem + "." + ext;
    LastIndexOfSplit(dir, base, '/');
    assert base == stem + ['.'] + ext;
    LastIndexOfSplit(stem, ext, '.');
  }

  /** The extension is a suffix of the path. */
  lemma ExtensionIsSuffix(p: string)
    ensures |PathinfoExtension(p)| <= |p|
    ensures PathinfoExtension(p) == p[|p| - |PathinfoExtension(p)|..]
  {
    var b := Basename(p);
    var e := PathinfoExtension(p);
    assert b == p[|p| - |b|..];
    if '.' in b {
      assert b == PathinfoFilename(p) + "." + e;
      assert e == b[|b| - |e|..];
    }
  }

  /** Every dot of the path comes before its extension. */
  lemma DotBeforeExtension(p: string, i: nat)
    requires i < |p| && p[i] == '.'
    ensures i + |PathinfoExtension(p)| < |p|
  {
    var e := PathinfoExtension(p);
    ExtensionIsSuffix(p);
    forall k | |p| - |e| <= k < |p|
      ensures p[k] != '.'
    {
      assert p[k] == e[k - (|p| - |e|)];
    }
  }

  /** The file name of a slash-free `p` keeps the dot-free prefix `p[..k]` and one more character. */
  lemma FilenameKeepsPrefix(p: string, k: nat)
    requires k < |p| && '.' !in p[..k + 1] && '/' !in p
    ensures |PathinfoFilename(p)| > k && PathinfoFilename(p)[..k + 1] == p[..k + 1]
  {
    assert Basename(p) == p;
    var dot := LastIndexOf(p, '.');
    if dot >= 0 {
      assert dot > k by {
        assert forall j :: 0 <= j <= k ==> p[..k + 1][j] == p[j];
      }
      assert p[..dot][..k + 1] == p[..k + 1];
    }
  }

  /** Whether a string is truthy in a PHP condition: all strings but "" and "0". */
  predicate Truthy(s: string) {
    s != "" && s != "0"
  }
}
