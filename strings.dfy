/**
 * The handful of Python `str` operations the scraper relies on, over `seq<char>`:
 * `startswith`, `endswith`, `in`, `find`, `split(sep)`, `split(sep, 1)`, `split()`,
 * `replace`, `strip` and `lower`.
 */
module Strings {
  import opened Wrappers

  /** Python's `str.isspace()`, which is also what `\s` matches in a `str` pattern. */
  predicate IsSpace(c: char) {
    || ('\t' <= c <= '\r')
    || ('\U{1C}' <= c <= ' ')
    || c == '\U{85}' || c == '\U{A0}' || c == '\U{1680}'
    || ('\U{2000}' <= c <= '\U{200A}')
    || c == '\U{2028}' || c == '\U{2029}' || c == '\U{202F}' || c == '\U{205F}' || c == '\U{3000}'
  }

  predicate StartsWith(s: string, prefix: string) {
    |prefix| <= |s| && s[..|prefix|] == prefix
  }

  predicate EndsWith(s: string, suffix: string) {
    |suffix| <= |s| && s[|s| - |suffix|..] == suffix
  }

  lemma StartsWithExtend(s: string, t: string, prefix: string)
    requires StartsWith(s, prefix)
    ensures StartsWith(s + t, prefix)
  {
    assert (s + t)[..|prefix|] == s[..|prefix|];
  }

  /** A prefix of a prefix is a prefix. */
  lemma StartsWithTrans(s: string, p: string, q: string)
    requires StartsWith(s, p) && StartsWith(p, q)
    ensures StartsWith(s, q)
  {
    assert s[..|q|] == s[..|p|][..|q|];
  }

  lemma EndsWithConcat(a: string, b: string)
    ensures EndsWith(a + b, b)
  {
    assert (a + b)[|a|..] == b;
  }

  /** `sub` occurs in `s` starting at index `i`. */
  predicate OccursAt(s: string, sub: string, i: nat) {
    i + |sub| <= |s| && s[i..i + |sub|] == sub
  }

  /** `s.find(sub, from)`: the first occurrence at or after `from`. */
  function IndexOfFrom(s: string, sub: string, from: nat): (r: Option<nat>)
    ensures r.Some? ==> from <= r.value && OccursAt(s, sub, r.value)
    ensures r.Some? ==> forall j :: from <= j < r.value ==> !OccursAt(s, sub, j)
    ensures r.None? ==> forall j :: from <= j ==> !OccursAt(s, sub, j)
    decreases |s| - from
  {
    if from + |sub| > |s| then None
    else if OccursAt(s, sub, from) then Some(from)
    else IndexOfFrom(s, sub, from + 1)
  }

  function IndexOf(s: string, sub: string): Option<nat> {
    IndexOfFrom(s, sub, 0)
  }

  /** Python's `sub in s`. */
  predicate Contains(s: string, sub: string) {
    IndexOf(s, sub).Some?
  }

  lemma OccursAtContains(s: string, sub: string, i: nat)
    requires OccursAt(s, sub, i)
    ensures Contains(s, sub)
  {
  }

  lemma OccursInPrefix(s: string, sub: string, k: nat, j: nat)
    requires k <= |s| && OccursAt(s[..k], sub, j)
    ensures OccursAt(s, sub, j)
  {
    assert s[..k][j..j + |sub|] == s[j..j + |sub|];
  }

  lemma OccursInSuffix(s: string, sub: string, k: nat, j: nat)
    requires k <= |s| && OccursAt(s[k..], sub, j)
    ensures OccursAt(s, sub, k + j)
  {
    assert s[k..][j..j + |sub|] == s[k + j..k + j + |sub|];
  }

  /** A string that contains `sub` still contains it with anything in front of it. */
  lemma ContainsAfterPrefix(a: string, b: string, sub: string)
    requires Contains(b, sub)
    ensures Contains(a + b, sub)
  {
    var j := IndexOf(b, sub).value;
    assert (a + b)[..|a|] == a && (a + b)[|a|..] == b;
    OccursInSuffix(a + b, sub, |a|, j);
  }

  /** For a one-character `sub`, `sub in s` is character membership. */
  lemma ContainsChar(s: string, c: char)
    ensures Contains(s, [c]) <==> c in s
  {
    if c in s {
      var j :| 0 <= j < |s| && s[j] == c;
      assert s[j..j + 1] == [c];
      OccursAtContains(s, [c], j);
    }
    if Contains(s, [c]) {
      var j := IndexOf(s, [c]).value;
      assert s[j..j + 1] == [c];
      assert s[j] == c;
    }
  }

  /** The text before the first occurrence of `sep` does not contain `sep`. */
  lemma BeforeFirstLacksSep(s: string, sep: string, k: nat)
    requires sep != "" && IndexOf(s, sep) == Some(k)
    ensures !Contains(s[..k], sep)
  {
    if Contains(s[..k], sep) {
      var j := IndexOf(s[..k], sep).value;
      OccursInPrefix(s, sep, k, j);
      assert false;
    }
  }

  /** Python's `s.split(sep)` for a non-empty separator. */
  function Split(s: string, sep: string): (r: seq<string>)
    requires sep != ""
    ensures |r| >= 1
    decreases |s|
  {
    match IndexOf(s, sep)
    case None => [s]
    case Some(k) => [s[..k]] + Split(s[k + |sep|..], sep)
  }

  /** Python's `sep.join(parts)`. */
  function Join(parts: seq<string>, sep: string): string
    decreases |parts|
  {
    if |parts| == 0 then ""
    else if |parts| == 1 then parts[0]
    else parts[0] + sep + Join(parts[1..], sep)
  }

  function Last<T>(xs: seq<T>): T
    requires |xs| > 0
  {
    xs[|xs| - 1]
  }

  /** Joining the pieces of a split with the same separator gives back the string. */
  lemma {:induction false} SplitJoin(s: string, sep: string)
    requires sep != ""
    ensures Join(Split(s, sep), sep) == s
    decreases |s|
  {
    match IndexOf(s, sep)
    case None =>
    case Some(k) =>
      var rest := s[k + |sep|..];
      var tail := Split(rest, sep);
      SplitJoin(rest, sep);
      JoinCons(s[..k], tail, sep);
      Pieces(s, k, k + |sep|);
      calc {
        Join(Split(s, sep), sep);
        Join([s[..k]] + tail, sep);
        s[..k] + sep + Join(tail, sep);
        s[..k] + s[k..k + |sep|] + rest;
      }
  }

  /** A string is its three slices at `i` and `j` put together. */
  lemma Pieces(s: string, i: nat, j: nat)
    requires i <= j <= |s|
    ensures s == s[..i] + s[i..j] + s[j..]
  {
  }

  lemma JoinCons(p: string, ps: seq<string>, sep: string)
    requires |ps| >= 1
    ensures Join([p] + ps, sep) == p + sep + Join(ps, sep)
  {
    assert ([p] + ps)[1..] == ps;
  }

  /** No piece of a split contains the separator. */
  lemma {:induction false} SplitPiecesLackSep(s: string, sep: string)
    requires sep != ""
    ensures forall p :: p in Split(s, sep) ==> !Contains(p, sep)
    decreases |s|
  {
    match IndexOf(s, sep)
    case None =>
      assert Split(s, sep) == [s];
    case Some(k) =>
      BeforeFirstLacksSep(s, sep, k);
      SplitPiecesLackSep(s[k + |sep|..], sep);
  }

  /** When `sep` occurs, the string ends with `sep` followed by the last piece of the split. */
  lemma {:induction false} SplitLastPiece(s: string, sep: string)
    requires sep != "" && Contains(s, sep)
    ensures EndsWith(s, sep + Last(Split(s, sep)))
    decreases |s|
  {
    var k := IndexOf(s, sep).value;
    var rest := s[k + |sep|..];
    var tail := Split(rest, sep);
    assert Split(s, sep) == [s[..k]] + tail;
    assert Last(Split(s, sep)) == Last(tail);
    if Contains(rest, sep) {
      SplitLastPiece(rest, sep);
      assert s[|s| - |rest|..] == rest;
    } else {
      assert tail == [rest];
      assert s[k..k + |sep|] == sep;
      assert s[|s| - |sep + rest|..] == s[k..] == sep + rest;
    }
  }

  /** Python's `s.replace(old, new)`: every non-overlapping occurrence, left to right. */
  function ReplaceAll(s: string, target: string, replacement: string): string
    requires target != ""
  {
    Join(Split(s, target), replacement)
  }

  lemma {:induction false} JoinAvoidsChar(parts: seq<string>, sep: string, c: char)
    requires forall p :: p in parts ==> c !in p
    requires c !in sep
    ensures c !in Join(parts, sep)
    decreases |parts|
  {
    if |parts| > 1 {
      JoinAvoidsChar(parts[1..], sep, c);
    }
  }

  /** Replacing a character by a different one leaves none of it behind. */
  lemma ReplaceCharRemovesIt(s: string, c: char, d: char)
    requires c != d
    ensures c !in ReplaceAll(s, [c], [d])
  {
    SplitPiecesLackSep(s, [c]);
    forall p | p in Split(s, [c]) ensures c !in p {
      ContainsChar(p, c);
    }
    JoinAvoidsChar(Split(s, [c]), [d], c);
  }

  /** Python's `s.split(sep, 1)` for a string in which `sep` occurs: the split at its first occurrence. */
  function SplitOnce(s: string, sep: string): (r: (string, string))
    requires Contains(s, sep)
    ensures OccursAt(s, sep, |r.0|)
    ensures forall j :: 0 <= j < |r.0| ==> !OccursAt(s, sep, j)
    ensures s == r.0 + sep + r.1
  {
    var k := IndexOf(s, sep).value;
    assert s == s[..k] + s[k..k + |sep|] + s[k + |sep|..];
    (s[..k], s[k + |sep|..])
  }

  function LowerChar(c: char): char {
    if 'A' <= c <= 'Z' then (c as int + 32) as char else c
  }

  /** Python's `s.lower()`, on the ASCII letters. */
  function Lower(s: string): (r: string)
    ensures |r| == |s|
    ensures forall i :: 0 <= i < |s| ==> r[i] == LowerChar(s[i])
  {
    seq(|s|, i requires 0 <= i < |s| => LowerChar(s[i]))
  }

  function TrimStart(s: string): (r: string)
    ensures |r| <= |s| && r == s[|s| - |r|..]
    ensures r == [] || !IsSpace(r[0])
    ensures forall i :: 0 <= i < |s| - |r| ==> IsSpace(s[i])
    decreases |s|
  {
    if s != [] && IsSpace(s[0]) then TrimStart(s[1..]) else s
  }

  function TrimEnd(s: string): (r: string)
    ensures |r| <= |s| && r == s[..|r|]
    ensures r == [] || !IsSpace(r[|r| - 1])
    ensures forall i :: |r| <= i < |s| ==> IsSpace(s[i])
    decreases |s|
  {
    if s != [] && IsSpace(s[|s| - 1]) then TrimEnd(s[..|s| - 1]) else s
  }

  /** Python's `s.strip()`. */
  function Strip(s: string): string {
    TrimEnd(TrimStart(s))
  }

  lemma TrimStartKeeps(s: string)
    requires s == [] || !IsSpace(s[0])
    ensures TrimStart(s) == s
  {
  }

  lemma TrimEndKeeps(s: string)
    requires s == [] || !IsSpace(s[|s| - 1])
    ensures TrimEnd(s) == s
  {
  }

  /** `strip` removes exactly the surrounding whitespace and is idempotent. */
  lemma StripShape(s: string)
    ensures Strip(s) == [] || (!IsSpace(Strip(s)[0]) && !IsSpace(Strip(s)[|Strip(s)| - 1]))
    ensures Strip(Strip(s)) == Strip(s)
  {
    var t := TrimStart(s);
    var r := TrimEnd(t);
    if r != [] {
      assert r[0] == t[0];
    }
    TrimStartKeeps(r);
    TrimEndKeeps(r);
  }

  /** `strip` returns the infix of the text between its leading and its trailing whitespace. */
  lemma StripInfix(s: string)
    ensures exists i, j :: 0 <= i <= j <= |s| && Strip(s) == s[i..j]
              && (forall k :: 0 <= k < i ==> IsSpace(s[k]))
              && (forall k :: j <= k < |s| ==> IsSpace(s[k]))
  {
    var t := TrimStart(s);
    var r := TrimEnd(t);
    var i, j := |s| - |t|, |s| - |t| + |r|;
    assert r == s[i..j];
    forall k | j <= k < |s|
      ensures IsSpace(s[k])
    {
      assert s[k] == t[k - i];
    }
    assert Strip(s) == s[i..j];
  }

  /** `strip` cannot cut into a prefix that begins and ends with non-whitespace. */
  lemma StripKeepsPrefix(s: string, p: string)
    requires StartsWith(s, p) && p != []
    requires !IsSpace(p[0]) && !IsSpace(p[|p| - 1])
    ensures StartsWith(Strip(s), p)
  {
    assert s[0] == p[0];
    TrimStartKeeps(s);
    var r := TrimEnd(s);
    assert s[|p| - 1] == p[|p| - 1];
    assert |p| <= |r|;
    assert r[..|p|] == s[..|p|];
  }

  /** End of the run of non-whitespace that starts at `i`. */
  function WordEnd(s: string, i: nat): (j: nat)
    requires i <= |s|
    ensures i <= j <= |s|
    ensures forall k :: i <= k < j ==> !IsSpace(s[k])
    ensures j == |s| || IsSpace(s[j])
    ensures i < |s| && !IsSpace(s[i]) ==> i < j
    decreases |s| - i
  {
    if i < |s| && !IsSpace(s[i]) then WordEnd(s, i + 1) else i
  }

  predicate HasNoSpace(w: string) {
    forall i :: 0 <= i < |w| ==> !IsSpace(w[i])
  }

  /** Python's `s.split()` with no argument: the maximal runs of non-whitespace. */
  function Words(s: string): seq<string>
    decreases |s|
  {
    var t := TrimStart(s);
    if t == [] then []
    else
      var n := WordEnd(t, 0);
      [t[..n]] + Words(t[n..])
  }

  /** Every word of `split()` is non-empty and holds no whitespace. */
  lemma {:induction false} WordsShape(s: string)
    ensures forall w :: w in Words(s) ==> w != [] && HasNoSpace(w)
    decreases |s|
  {
    var t := TrimStart(s);
    if t != [] {
      var n := WordEnd(t, 0);
      var first := t[..n];
      var rest := Words(t[n..]);
      WordHasNoSpace(t, n);
      WordsShape(t[n..]);
      assert Words(s) == [first] + rest;
      forall w | w in Words(s) ensures w != [] && HasNoSpace(w) {
        if w != first {
          assert w in rest;
        }
      }
    }
  }

  lemma WordHasNoSpace(t: string, n: nat)
    requires n <= |t| && forall k :: 0 <= k < n ==> !IsSpace(t[k])
    ensures HasNoSpace(t[..n])
  {
  }

  /** A non-empty string without whitespace is its own single word. */
  lemma WordsOfOneWord(s: string)
    requires s != [] && HasNoSpace(s)
    ensures Words(s) == [s]
  {
    TrimStartKeeps(s);
    assert WordEnd(s, 0) == |s|;
    assert s[..|s|] == s;
    assert s[|s|..] == [];
    assert TrimStart([]) == [];
    assert Words([]) == [];
  }
}
