/** The pieces of Go's `path/filepath` and `strings` that the avatar code
    relies on, assuming a Unix platform, where `/` is the only path
    separator. */
module FilePath {

  /** No extension dot and no separator anywhere in `s`. */
  predicate PlainTail(s: string) {
    forall j :: 0 <= j < |s| ==> s[j] != '.' && s[j] != '/'
  }

  /** `e` is the extension of `path` as `filepath.Ext` defines it: the suffix
      that starts at the last dot of the final path element, or empty when
      that element has no dot. */
  ghost predicate IsExtension(path: string, e: string) {
    if e == "" then
      forall k :: 0 <= k < |path| && path[k] == '.' ==> '/' in path[k + 1..]
    else
      |e| <= |path| && e == path[|path| - |e|..] && e[0] == '.' && PlainTail(e[1..])
  }

  /** The scan of `filepath.Ext`, from index `n - 1` down to the first
      separator; the characters at `n` and beyond were already passed over. */
  function ExtFrom(path: string, n: nat): (e: string)
    requires n <= |path|
    requires PlainTail(path[n..])
    ensures IsExtension(path, e)
    decreases n
  {
    if n == 0 || path[n - 1] == '/' then ""
    else if path[n - 1] == '.' then path[n - 1..]
    else
      assert path[n - 1..] == [path[n - 1]] + path[n..];
      ExtFrom(path, n - 1)
  }

  /** `filepath.Ext(path)`. */
  function Ext(path: string): (e: string)
    ensures IsExtension(path, e)
  {
    ExtFrom(path, |path|)
  }

  /** A path has exactly one extension, so `Ext` is fully described by
      `IsExtension`. */
  lemma ExtensionUnique(path: string, e1: string, e2: string)
    requires IsExtension(path, e1) && IsExtension(path, e2)
    ensures e1 == e2
  {
  }

  /** Appending a dotted suffix without further dots or separators fixes the
      extension, whatever precedes it: `Ext(name + ".jpeg") == ".jpeg"`. */
  lemma ExtOfSuffix(name: string, e: string)
    requires |e| > 0 && e[0] == '.' && PlainTail(e[1..])
    ensures Ext(name + e) == e
  {
    var path := name + e;
    assert path[|path| - |e|..] == e;
    assert IsExtension(path, e);
    ExtensionUnique(path, Ext(path), e);
  }

  /** `unicode.ToLower` on one code point, for the code points whose lower
      case is ASCII: the letters A-Z, U+0130 (capital I with dot above, which
      lowers to `i`) and U+212A (Kelvin sign, which lowers to `k`). Every
      other code point is left unchanged here; its real lower case is not
      ASCII either. */
  function LowerRune(c: char): (l: char)
    ensures l == '.' <==> c == '.'
    ensures l == '/' <==> c == '/'
    ensures l == c || (c != '.' && c != '/' && l as int < 0x80)
    ensures !('A' <= l <= 'Z')
  {
    if 'A' <= c <= 'Z' then (c as int + 32) as char
    else if c == '\U{0130}' then 'i'
    else if c == '\U{212A}' then 'k'
    else c
  }

  /** `strings.ToLower`: each code point lowered on its own. */
  function ToLower(s: string): (r: string)
    ensures |r| == |s|
    ensures forall i :: 0 <= i < |s| ==> !('A' <= r[i] <= 'Z')
    ensures forall i :: 0 <= i < |s| && 'A' <= s[i] <= 'Z' ==> r[i] as int == s[i] as int + 32
    ensures forall i :: 0 <= i < |s| && s[i] as int < 0x80 && !('A' <= s[i] <= 'Z') ==> r[i] == s[i]
    ensures forall i :: 0 <= i < |s| ==> (r[i] == '.' <==> s[i] == '.') && (r[i] == '/' <==> s[i] == '/')
  {
    seq(|s|, i requires 0 <= i < |s| => LowerRune(s[i]))
  }

  /** Lower-casing twice is lower-casing once. */
  lemma ToLowerIdempotent(s: string)
    ensures ToLower(ToLower(s)) == ToLower(s)
  {
  }

  /** Lower-casing neither creates nor removes dots and separators, so it
      commutes with taking the extension; hence dispatch on the lowered
      extension is case-insensitive. */
  lemma ExtOfLower(path: string)
    ensures Ext(ToLower(path)) == ToLower(Ext(path))
  {
    var lp := ToLower(path);
    var e := Ext(path);
    var le := ToLower(e);
    if e == "" {
      forall k | 0 <= k < |lp| && lp[k] == '.'
        ensures '/' in lp[k + 1..]
      {
        assert path[k] == '.';
        var j :| j in path[k + 1..] && j == '/';
        var i :| k + 1 <= i < |path| && path[i] == '/';
        assert lp[i] == '/';
        assert lp[k + 1..][i - k - 1] == '/';
      }
      assert IsExtension(lp, le);
    } else {
      assert lp[|lp| - |le|..] == le;
      assert le[1..] == ToLower(e[1..]);
      assert IsExtension(lp, le);
    }
    ExtensionUnique(lp, Ext(lp), le);
  }

  /** `filepath.Join(dir, name)`: the non-empty elements joined by `/`. The
      final `Clean` is not modelled; it changes nothing when `dir` is a clean
      relative path and `name` is one directory-entry name. */
  function Join(dir: string, name: string): (r: string)
    ensures dir != "" && name != "" ==> |r| == |dir| + 1 + |name|
  {
    if dir == "" then name
    else if name == "" then dir
    else dir + "/" + name
  }

  /** Within one directory, distinct entry names give distinct joined paths,
      and the entry name is what follows the directory and separator. */
  lemma JoinInjective(dir: string, n1: string, n2: string)
    requires dir != "" && n1 != "" && n2 != ""
    ensures Join(dir, n1)[..|dir| + 1] == dir + "/"
    ensures Join(dir, n1)[|dir| + 1..] == n1
    ensures Join(dir, n1) == Join(dir, n2) <==> n1 == n2
  {
    assert Join(dir, n1)[|dir| + 1..] == n1;
    assert Join(dir, n2)[|dir| + 1..] == n2;
  }
}
