// The JavaScript string primitives the relay relies on: `String.prototype.trim`,
// `slice(0, n)`, the ASCII case folding of a regular expression with the `i`
// flag (and no `u` flag), and the decimal rendering of a status code in a
// template literal.
module Strings {
  import opened Wrappers

  /** The code points `trim` removes: ECMAScript WhiteSpace (TAB, VT, FF,
      ZWNBSP and every Zs space separator) and LineTerminator (LF, CR, LS, PS). */
  predicate IsWs(c: char)
  {
    || c == '\t' || c == '\n' || c == '\U{000B}' || c == '\U{000C}' || c == '\r'
    || c == ' ' || c == '\U{00A0}' || c == '\U{1680}'
    || ('\U{2000}' <= c <= '\U{200A}')
    || c == '\U{2028}' || c == '\U{2029}' || c == '\U{202F}' || c == '\U{205F}'
    || c == '\U{3000}' || c == '\U{FEFF}'
  }

  predicate AllWs(s: string)
  {
    forall k :: 0 <= k < |s| ==> IsWs(s[k])
  }

  /** Neither starts nor ends with whitespace. */
  predicate IsTrimmed(s: string)
  {
    s == [] || (!IsWs(s[0]) && !IsWs(s[|s| - 1]))
  }

  /** The leading whitespace removed: what is left is a suffix of `s`. */
  function TrimStart(s: string): (r: string)
    ensures |r| <= |s| && r == s[|s| - |r|..]
    ensures AllWs(s[..|s| - |r|])
    ensures r == [] || !IsWs(r[0])
  {
    if |s| > 0 && IsWs(s[0]) then
      var r := TrimStart(s[1..]);
      assert s[..|s| - |r|] == [s[0]] + s[1..][..|s| - 1 - |r|];
      r
    else
      s
  }

  /** The trailing whitespace removed: what is left is a prefix of `s`. */
  function TrimEnd(s: string): (r: string)
    ensures |r| <= |s| && r == s[..|r|]
    ensures AllWs(s[|r|..])
    ensures r == [] || !IsWs(r[|r| - 1])
  {
    if |s| > 0 && IsWs(s[|s| - 1]) then
      var r := TrimEnd(s[..|s| - 1]);
      assert s[|r|..] == s[..|s| - 1][|r|..] + [s[|s| - 1]];
      r
    else
      s
  }

  /** `s.trim()`. */
  function Trim(s: string): (r: string)
    ensures IsTrimmed(r)
    ensures |r| <= |s|
    ensures r == [] <==> AllWs(s)
  {
    TrimEnd(TrimStart(s))
  }

  lemma TrimUnfold(s: string)
    ensures Trim(s) == TrimEnd(TrimStart(s))
  {
  }

  lemma SplitAt(s: string, k: nat)
    requires k <= |s|
    ensures s == s[..k] + s[k..]
  {
  }

  /** Everything `trim` removes is whitespace, on both sides. */
  lemma {:induction false} TrimSplit(s: string) returns (pre: string, post: string)
    ensures s == pre + Trim(s) + post
    ensures AllWs(pre) && AllWs(post)
  {
    var t := TrimStart(s);
    var r := TrimEnd(t);
    pre := s[..|s| - |t|];
    post := t[|r|..];
    SplitAt(t, |r|);
    SplitAt(s, |s| - |t|);
    Associate(pre, r, post);
    TrimUnfold(s);
  }

  lemma Associate(a: string, b: string, c: string)
    ensures a + (b + c) == a + b + c
  {
  }

  lemma {:induction false} TrimStartSkipsWs(pre: string, s: string)
    requires AllWs(pre)
    ensures TrimStart(pre + s) == TrimStart(s)
  {
    if pre != [] {
      assert (pre + s)[0] == pre[0] && IsWs(pre[0]);
      assert (pre + s)[1..] == pre[1..] + s;
      assert TrimStart(pre + s) == TrimStart(pre[1..] + s);
      TrimStartSkipsWs(pre[1..], s);
    } else {
      assert pre + s == s;
    }
  }

  lemma {:induction false} TrimEndSkipsWs(s: string, post: string)
    requires AllWs(post)
    ensures TrimEnd(s + post) == TrimEnd(s)
  {
    if post != [] {
      var n := |post| - 1;
      var sp := s + post;
      assert sp[|sp| - 1] == post[n] && IsWs(post[n]);
      assert sp[..|sp| - 1] == s + post[..n];
      assert TrimEnd(sp) == TrimEnd(s + post[..n]);
      TrimEndSkipsWs(s, post[..n]);
    } else {
      assert s + post == s;
    }
  }

  /** Trim is characterised by what it keeps: surrounding a trimmed text by
      whitespace on either side and trimming gives that text back. */
  lemma TrimOfPadded(pre: string, t: string, post: string)
    requires AllWs(pre) && AllWs(post) && IsTrimmed(t)
    ensures Trim(pre + t + post) == t
  {
    assert pre + t + post == pre + (t + post);
    TrimStartSkipsWs(pre, t + post);
    if t == [] {
      assert t + post == post;
      TrimStartSkipsWs(post, []);
      assert post + [] == post;
    } else {
      assert TrimStart(t + post) == t + post;
      TrimEndSkipsWs(t, post);
    }
  }

  /** A text that is already trimmed is its own trim. */
  lemma TrimOfTrimmed(t: string)
    requires IsTrimmed(t)
    ensures Trim(t) == t
  {
    TrimOfPadded([], t, []);
    assert [] + t + [] == t;
  }

  /** Trimming twice is trimming once. */
  lemma TrimIdempotent(s: string)
    ensures Trim(Trim(s)) == Trim(s)
  {
    TrimOfTrimmed(Trim(s));
  }

  /** `String(s || "").slice(0, n)`: at most the first `n` characters of
      the text, or of "" when it is absent. */
  function SafeSlice(s: Option<string>, n: nat := 240): (r: string)
    ensures r <= s.GetOr("")
    ensures |r| == if n <= |s.GetOr("")| then n else |s.GetOr("")|
  {
    var src := s.GetOr("");
    if n <= |src| then src[..n] else src
  }

  /** The canonical character a case-insensitive non-unicode regular
      expression compares: ASCII letters fold, nothing else does. */
  function Lower(c: char): (r: char)
    ensures r == c <==> !('A' <= c <= 'Z')
    ensures 'A' <= c <= 'Z' ==> 'a' <= r <= 'z' && r as int == c as int + 32
  {
    if 'A' <= c <= 'Z' then (c as int + 32) as char else c
  }

  /** Folding is stable: a folded character folds to itself. */
  lemma LowerIdempotent(c: char)
    ensures Lower(Lower(c)) == Lower(c)
  {
  }

  predicate IsDigit(c: char)
  {
    '0' <= c <= '9'
  }

  function Digit(d: nat): (c: char)
    requires d < 10
  {
    ('0' as int + d) as char
  }

  /** A non-negative integer as a template literal renders it. */
  function NatToString(n: nat): (r: string)
    ensures |r| > 0
    ensures forall k :: 0 <= k < |r| ==> IsDigit(r[k])
    ensures r[0] == '0' ==> n == 0
  {
    if n < 10 then [Digit(n)] else NatToString(n / 10) + [Digit(n % 10)]
  }

  /** The value of a string of decimal digits. */
  function DecimalValue(s: string): nat
  {
    if s == [] then 0
    else
      var c := s[|s| - 1];
      10 * DecimalValue(s[..|s| - 1]) + (if IsDigit(c) then c as int - '0' as int else 0)
  }

  /** The rendering loses nothing: reading it back gives the number. */
  lemma {:induction false} NatToStringRoundTrip(n: nat)
    ensures DecimalValue(NatToString(n)) == n
  {
    if n >= 10 {
      var p := NatToString(n / 10);
      var s := p + [Digit(n % 10)];
      assert s[..|s| - 1] == p;
      NatToStringRoundTrip(n / 10);
    }
  }
}
