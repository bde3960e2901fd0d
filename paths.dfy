/** Path and string helpers the logger and the configuration share: the
    final component of a path, Rust's `Path::extension` rule, and
    `to_uppercase` restricted to ASCII. */
module Paths {
  import opened Basics

  /** The index of the last occurrence of `c` in `s`, if any. */
  function LastIndexOf(s: string, c: char): (r: Option<nat>)
    ensures r.Some? ==> r.value < |s| && s[r.value] == c
    ensures r.Some? ==> forall j :: r.value < j < |s| ==> s[j] != c
    ensures r.None? ==> forall j :: 0 <= j < |s| ==> s[j] != c
  {
    if s == [] then None
    else if s[|s| - 1] == c then Some(|s| - 1)
    else LastIndexOf(s[..|s| - 1], c)
  }

  /** The final component of a '/'-separated path. */
  function FileName(path: string): (name: string)
    ensures forall k :: 0 <= k < |name| ==> name[k] != '/'
    ensures exists k :: 0 <= k <= |path| && path[k..] == name && (k == 0 || path[k - 1] == '/')
  {
    match LastIndexOf(path, '/')
    case None =>
      assert path[0..] == path;
      path
    case Some(i) => path[i + 1..]
  }

  /** `Path::extension` of a file name: the text after the last '.', except
      that a name without a '.', a name whose only '.' is its first
      character, and the name ".." have none. */
  function Extension(name: string): (r: Option<string>)
    ensures name == ".." ==> r.None?
    ensures r.Some? ==> forall k :: 0 <= k < |r.value| ==> r.value[k] != '.'
  {
    if name == ".." then None
    else match LastIndexOf(name, '.')
      case None => None
      case Some(i) =>
        if i == 0 then None
        else Some(name[i + 1..])
  }

  /** A name has extension `e` exactly when it is a non-empty stem, a '.' and
      `e`, where `e` holds no '.' (leaving the ".." special case aside). */
  lemma {:induction false} ExtensionIs(name: string, e: string)
    requires name != ".."
    ensures Extension(name) == Some(e) <==>
              ('.' !in e && |name| > |e| + 1 && name[|name| - |e| - 1..] == "." + e)
  {
    var n := |name| - |e| - 1;
    if Extension(name) == Some(e) {
      var i := LastIndexOf(name, '.').value;
      assert name[i + 1..] == e;
      assert i == n;
      assert name[n..] == [name[n]] + name[n + 1..];
    }
    if '.' !in e && |name| > |e| + 1 && name[n..] == "." + e {
      assert name[n] == '.';
      var r := LastIndexOf(name, '.');
      if r.None? {
        assert false;
      }
      var i := r.value;
      assert i == n;
      assert name[n + 1..] == name[n..][1..] == e;
    }
  }

  /** ASCII upper-casing of one character. */
  function UpperChar(c: char): char
  {
    if 'a' <= c <= 'z' then (c as int - 32) as char else c
  }

  /** `to_uppercase`, on ASCII letters: every character upper-cased in place. */
  function Upper(s: string): (r: string)
    ensures |r| == |s|
    ensures forall i :: 0 <= i < |s| ==> r[i] == UpperChar(s[i])
  {
    if s == [] then [] else [UpperChar(s[0])] + Upper(s[1..])
  }

  /** `s` spells `lower` (a lower-case word) in any mix of cases. */
  predicate SpellsIgnoringCase(s: string, lower: string)
  {
    |s| == |lower| && forall i :: 0 <= i < |s| ==> s[i] == lower[i] || s[i] == UpperChar(lower[i])
  }

  /** Upper-casing maps `s` onto the upper-case form of a lower-case word
      exactly when `s` spells that word in some mix of cases. */
  lemma {:induction false} UpperMatches(s: string, lower: string)
    requires forall i :: 0 <= i < |lower| ==> 'a' <= lower[i] <= 'z'
    ensures Upper(s) == Upper(lower) <==> SpellsIgnoringCase(s, lower)
  {
    if Upper(s) == Upper(lower) {
      forall i | 0 <= i < |s|
        ensures s[i] == lower[i] || s[i] == UpperChar(lower[i])
      {
        assert UpperChar(s[i]) == Upper(s)[i] == Upper(lower)[i] == UpperChar(lower[i]);
      }
    }
    if SpellsIgnoringCase(s, lower) {
      forall i | 0 <= i < |s|
        ensures Upper(s)[i] == Upper(lower)[i]
      {
        assert UpperChar(s[i]) == UpperChar(lower[i]);
      }
    }
  }
}
