// The brand filter: `text.replace(/ChatGPT/gi, "SzalAI").replace(/OpenAI/gi, "SzalAI")`.
// A global regular expression scans left to right and, after a match, resumes
// right after it, so matches never overlap. Without the `u` flag the `i` flag
// folds only ASCII letters (a non-ASCII character never matches an ASCII one).
module Brand {
  import opened Wrappers
  import opened Strings

  const BrandName: string := "SzalAI"
  const ChatGpt: string := "ChatGPT"
  const OpenAi: string := "OpenAI"

  /** `pat` matches `s` at position `i`, ignoring ASCII case. */
  predicate MatchAt(s: string, i: nat, pat: string)
  {
    i + |pat| <= |s| && forall k :: 0 <= k < |pat| ==> Lower(s[i + k]) == Lower(pat[k])
  }

  /** No case-insensitive occurrence of `pat` anywhere in `s`. */
  predicate Free(s: string, pat: string)
  {
    forall i :: 0 <= i <= |s| ==> !MatchAt(s, i, pat)
  }

  /** Every non-overlapping occurrence of `pat`, found left to right, replaced by `rep`. */
  function ReplaceAll(s: string, pat: string, rep: string): (r: string)
    requires |pat| > 0
    ensures |rep| <= |pat| ==> |r| <= |s|
    ensures |s| > 0 && |rep| > 0 ==> |r| > 0
    ensures forall c :: c in r ==> c in s || c in rep
    decreases |s|
  {
    if |s| < |pat| then s
    else if MatchAt(s, 0, pat) then rep + ReplaceAll(s[|pat|..], pat, rep)
    else [s[0]] + ReplaceAll(s[1..], pat, rep)
  }

  /** `brandSwap(text)`: absent text becomes "", then both vendor names are
      replaced, `ChatGPT` first. */
  function BrandSwap(text: Option<string>): (r: string)
    ensures text == None ==> r == ""
    ensures |r| <= |text.GetOr("")|
  {
    ReplaceAll(ReplaceAll(text.GetOr(""), ChatGpt, BrandName), OpenAi, BrandName)
  }

  /** A replacement can never complete a new match: the pattern's first letter
      does not occur in the replacement, and the replacement's first letter does
      not occur in the pattern (both up to ASCII case). */
  predicate Separated(pat: string, rep: string)
  {
    && |pat| > 0 && |rep| > 0
    && (forall i :: 0 <= i < |rep| ==> Lower(rep[i]) != Lower(pat[0]))
    && (forall k :: 0 <= k < |pat| ==> Lower(pat[k]) != Lower(rep[0]))
  }

  lemma BrandSeparated()
    ensures Separated(ChatGpt, BrandName) && Separated(OpenAi, BrandName)
  {
    assert BrandName == ['S', 'z', 'a', 'l', 'A', 'I'];
    assert ChatGpt == ['C', 'h', 'a', 't', 'G', 'P', 'T'];
    assert OpenAi == ['O', 'p', 'e', 'n', 'A', 'I'];
  }

  lemma MatchAtSuffix(s: string, m: nat, i: nat, pat: string)
    requires m <= |s|
    ensures MatchAt(s[m..], i, pat) <==> MatchAt(s, m + i, pat)
  {
    if MatchAt(s, m + i, pat) {
      forall k | 0 <= k < |pat| ensures Lower(s[m..][i + k]) == Lower(pat[k]) {
        assert s[m..][i + k] == s[m + i + k];
      }
    }
  }

  lemma MatchAtAfter(a: string, b: string, i: nat, pat: string)
    ensures MatchAt(a + b, |a| + i, pat) <==> MatchAt(b, i, pat)
  {
    if MatchAt(b, i, pat) {
      forall k | 0 <= k < |pat| ensures Lower((a + b)[|a| + i + k]) == Lower(pat[k]) {
        assert (a + b)[|a| + i + k] == b[i + k];
      }
    }
  }

  /** Within the first `n` characters of the output, either nothing has been
      replaced yet, or a replacement starts somewhere before position `n`. */
  lemma {:induction false} HeadShape(s: string, pat: string, rep: string, n: nat)
    requires |pat| > 0 && |rep| > 0
    requires n <= |ReplaceAll(s, pat, rep)|
    ensures || (n <= |s| && forall k :: 0 <= k < n ==> ReplaceAll(s, pat, rep)[k] == s[k])
            || (exists j :: 0 <= j < n && ReplaceAll(s, pat, rep)[j] == rep[0])
    decreases |s|
  {
    var r := ReplaceAll(s, pat, rep);
    if |s| < |pat| || n == 0 {
    } else if MatchAt(s, 0, pat) {
      assert r[0] == rep[0];
    } else {
      var t := ReplaceAll(s[1..], pat, rep);
      assert r == [s[0]] + t;
      HeadShape(s[1..], pat, rep, n - 1);
      if exists j :: 0 <= j < n - 1 && t[j] == rep[0] {
        var j :| 0 <= j < n - 1 && t[j] == rep[0];
        assert r[j + 1] == rep[0];
      } else {
        forall k | 0 <= k < n ensures r[k] == s[k] {
          if k > 0 {
            assert r[k] == t[k - 1] && s[k] == s[1..][k - 1];
          }
        }
      }
    }
  }

  /** Replacing `pat` leaves no occurrence of `q` behind, where `q` is either
      the pattern itself or a name that did not occur beforehand, provided the
      replacement is separated from `q`. */
  lemma {:induction false} ReplaceLeavesNoMatch(s: string, pat: string, q: string, rep: string)
    requires |pat| > 0 && Separated(q, rep)
    requires q == pat || Free(s, q)
    ensures Free(ReplaceAll(s, pat, rep), q)
    decreases |s|
  {
    if |s| >= |pat| {
      var m := if MatchAt(s, 0, pat) then |pat| else 1;
      var rest := s[m..];
      if q != pat {
        forall i | 0 <= i <= |rest| ensures !MatchAt(rest, i, q) {
          MatchAtSuffix(s, m, i, q);
        }
      }
      ReplaceLeavesNoMatch(rest, pat, q, rep);
      if MatchAt(s, 0, pat) {
        ReplacedHeadNoMatch(s, pat, q, rep);
      } else {
        KeptHeadNoMatch(s, pat, q, rep);
      }
    }
  }

  /** The step of ReplaceLeavesNoMatch where the text starts with a match. */
  lemma ReplacedHeadNoMatch(s: string, pat: string, q: string, rep: string)
    requires |pat| > 0 && Separated(q, rep)
    requires |s| >= |pat| && MatchAt(s, 0, pat)
    requires Free(ReplaceAll(s[|pat|..], pat, rep), q)
    ensures Free(ReplaceAll(s, pat, rep), q)
  {
    var r := ReplaceAll(s, pat, rep);
    var t := ReplaceAll(s[|pat|..], pat, rep);
    assert r == rep + t;
    forall i | 0 <= i <= |r| ensures !MatchAt(r, i, q) {
      if i >= |rep| {
        MatchAtAfter(rep, t, i - |rep|, q);
      }
    }
  }

  /** The step of ReplaceLeavesNoMatch where the first character is kept. */
  lemma KeptHeadNoMatch(s: string, pat: string, q: string, rep: string)
    requires |pat| > 0 && Separated(q, rep)
    requires |s| >= |pat| && !MatchAt(s, 0, pat)
    requires q == pat || Free(s, q)
    requires Free(ReplaceAll(s[1..], pat, rep), q)
    ensures Free(ReplaceAll(s, pat, rep), q)
  {
    var r := ReplaceAll(s, pat, rep);
    var t := ReplaceAll(s[1..], pat, rep);
    assert r == [s[0]] + t;
    assert !MatchAt(s, 0, q);
    forall i | 0 <= i <= |r| ensures !MatchAt(r, i, q) {
      if i == 0 {
        if |q| - 1 <= |t| {
          HeadShape(s[1..], pat, rep, |q| - 1);
          KeptHeadNoMatchAtStart(s, t, q, rep);
        }
      } else {
        MatchAtAfter([s[0]], t, i - 1, q);
      }
    }
  }

  /** No occurrence of `q` can start at a kept first character: it would
      either run into a replacement, whose first letter `q` does not contain,
      or consist of original characters only, which did not match. */
  lemma KeptHeadNoMatchAtStart(s: string, t: string, q: string, rep: string)
    requires |s| > 0 && Separated(q, rep) && !MatchAt(s, 0, q) && |q| - 1 <= |t|
    requires || (|q| - 1 <= |s| - 1 && forall k :: 0 <= k < |q| - 1 ==> t[k] == s[1..][k])
             || (exists j :: 0 <= j < |q| - 1 && j < |t| && t[j] == rep[0])
    ensures !MatchAt([s[0]] + t, 0, q)
  {
    var r := [s[0]] + t;
    if exists j :: 0 <= j < |q| - 1 && j < |t| && t[j] == rep[0] {
      var j :| 0 <= j < |q| - 1 && j < |t| && t[j] == rep[0];
      assert r[0 + (j + 1)] == rep[0];
      assert Lower(r[0 + (j + 1)]) != Lower(q[j + 1]);
    } else {
      forall k | 0 <= k < |q| ensures r[k] == s[k] {
        if k > 0 {
          assert r[k] == t[k - 1] && s[k] == s[1..][k - 1];
        }
      }
    }
  }

  /** Text before the first occurrence of the pattern is copied unchanged. */
  lemma {:induction false} KeepsUnmatchedPrefix(a: string, b: string, pat: string, rep: string)
    requires |pat| > 0
    requires forall i :: 0 <= i < |a| ==> !MatchAt(a + b, i, pat)
    ensures ReplaceAll(a + b, pat, rep) == a + ReplaceAll(b, pat, rep)
    decreases |a|
  {
    if a == [] {
      assert a + b == b;
    } else {
      var s := a + b;
      assert !MatchAt(s, 0, pat);
      if |s| >= |pat| {
        assert s[1..] == a[1..] + b;
        forall i | 0 <= i < |a[1..]| ensures !MatchAt(a[1..] + b, i, pat) {
          MatchAtSuffix(s, 1, i, pat);
        }
        KeepsUnmatchedPrefix(a[1..], b, pat, rep);
        assert [a[0]] + (a[1..] + ReplaceAll(b, pat, rep)) == a + ReplaceAll(b, pat, rep);
      }
    }
  }

  /** A text that starts with an occurrence has it replaced, and the rest follows. */
  lemma ReplaceAtHead(m: string, x: string, pat: string, rep: string)
    requires |pat| > 0 && |m| == |pat| && MatchAt(m, 0, pat)
    ensures ReplaceAll(m + x, pat, rep) == rep + ReplaceAll(x, pat, rep)
  {
    assert MatchAt(m + x, 0, pat) by {
      forall k | 0 <= k < |pat| ensures Lower((m + x)[0 + k]) == Lower(pat[k]) {
        assert (m + x)[k] == m[k];
      }
    }
    assert (m + x)[|pat|..] == x;
  }

  /** The first occurrence, at `i`, becomes the replacement; the text before it
      is kept, and the text after it is processed in turn. */
  lemma ReplaceAtFirstMatch(s: string, i: nat, pat: string, rep: string)
    requires |pat| > 0 && MatchAt(s, i, pat)
    requires forall j :: 0 <= j < i ==> !MatchAt(s, j, pat)
    ensures ReplaceAll(s, pat, rep) == s[..i] + rep + ReplaceAll(s[i + |pat|..], pat, rep)
  {
    var a, y := s[..i], s[i..];
    var z := y[|pat|..];
    KeepsTextBefore(s, i, pat, rep);
    assert ReplaceAll(y, pat, rep) == rep + ReplaceAll(z, pat, rep) by {
      MatchAtSuffix(s, i, 0, pat);
    }
    assert z == s[i + |pat|..];
    assert a + (rep + ReplaceAll(z, pat, rep)) == a + rep + ReplaceAll(z, pat, rep);
  }

  lemma KeepsTextBefore(s: string, i: nat, pat: string, rep: string)
    requires |pat| > 0 && i <= |s|
    requires forall j :: 0 <= j < i ==> !MatchAt(s, j, pat)
    ensures ReplaceAll(s, pat, rep) == s[..i] + ReplaceAll(s[i..], pat, rep)
  {
    var a, y := s[..i], s[i..];
    assert s == a + y;
    KeepsUnmatchedPrefix(a, y, pat, rep);
  }

  /** Whether `q` occurs at `i` depends only on the characters it covers. */
  lemma SamePrefixSameMatch(p: string, x: string, y: string, i: nat, q: string)
    requires i + |q| <= |p|
    ensures MatchAt(p + x, i, q) <==> MatchAt(p + y, i, q)
  {
    forall k | 0 <= k < |q|
      ensures Lower((p + x)[i + k]) == Lower(q[k]) <==> Lower((p + y)[i + k]) == Lower(q[k])
    {
      assert (p + x)[i + k] == p[i + k] == (p + y)[i + k];
    }
  }

  /** No occurrence of `q` can start inside a replacement separated from it. */
  lemma RepLeadsNoMatch(rep: string, x: string, q: string)
    requires Separated(q, rep)
    ensures forall i :: 0 <= i < |rep| ==> !MatchAt(rep + x, i, q)
  {
    forall i | 0 <= i < |rep| ensures !MatchAt(rep + x, i, q) {
      assert (rep + x)[i + 0] == rep[i];
    }
  }

  /** Replacing `pat` after a prefix creates no occurrence of `q` starting in
      that prefix, when the replacement is separated from `q`. */
  lemma PrefixStaysUnmatched(a: string, b: string, pat: string, q: string, rep: string)
    requires |pat| > 0 && Separated(q, rep)
    requires forall i :: 0 <= i < |a| ==> !MatchAt(a + b, i, q)
    ensures forall i :: 0 <= i < |a| ==> !MatchAt(a + ReplaceAll(b, pat, rep), i, q)
  {
    forall i | 0 <= i < |a| ensures !MatchAt(a + ReplaceAll(b, pat, rep), i, q) {
      PrefixStaysUnmatchedAt(a, b, pat, q, rep, i);
    }
  }

  lemma PrefixStaysUnmatchedAt(a: string, b: string, pat: string, q: string, rep: string, i: nat)
    requires |pat| > 0 && Separated(q, rep)
    requires i < |a| && !MatchAt(a + b, i, q)
    ensures !MatchAt(a + ReplaceAll(b, pat, rep), i, q)
  {
    var t := ReplaceAll(b, pat, rep);
    if i + |q| <= |a| {
      SamePrefixSameMatch(a, b, t, i, q);
    } else if i + |q| <= |a| + |t| {
      var n := i + |q| - |a|;
      HeadShape(b, pat, rep, n);
      if exists j :: 0 <= j < n && t[j] == rep[0] {
        var j :| 0 <= j < n && t[j] == rep[0];
        var k := |a| + j - i;
        assert (a + t)[i + k] == rep[0];
        assert Lower(q[k]) != Lower(rep[0]);
      } else {
        assert i + |q| <= |a + b|;
        var k :| 0 <= k < |q| && Lower((a + b)[i + k]) != Lower(q[k]);
        assert (a + t)[i + k] == (a + b)[i + k];
      }
    }
  }

  /** A text with no occurrence of the pattern comes back unchanged. */
  lemma {:induction false} ReplaceAllOfFree(s: string, pat: string, rep: string)
    requires |pat| > 0 && Free(s, pat)
    ensures ReplaceAll(s, pat, rep) == s
    decreases |s|
  {
    if |s| >= |pat| {
      assert !MatchAt(s, 0, pat);
      forall i | 0 <= i <= |s[1..]| ensures !MatchAt(s[1..], i, pat) {
        MatchAtSuffix(s, 1, i, pat);
      }
      ReplaceAllOfFree(s[1..], pat, rep);
      assert [s[0]] + s[1..] == s;
    }
  }

  /** After the filter, neither vendor name occurs in any letter case. */
  lemma BrandSwapRemovesNames(text: Option<string>)
    ensures Free(BrandSwap(text), ChatGpt) && Free(BrandSwap(text), OpenAi)
  {
    BrandSeparated();
    var once := ReplaceAll(text.GetOr(""), ChatGpt, BrandName);
    ReplaceLeavesNoMatch(text.GetOr(""), ChatGpt, ChatGpt, BrandName);
    ReplaceLeavesNoMatch(once, OpenAi, ChatGpt, BrandName);
    ReplaceLeavesNoMatch(once, OpenAi, OpenAi, BrandName);
  }

  /** A text that names neither vendor passes the filter unchanged. */
  lemma BrandSwapKeepsClean(s: string)
    requires Free(s, ChatGpt) && Free(s, OpenAi)
    ensures BrandSwap(Some(s)) == s
  {
    ReplaceAllOfFree(s, ChatGpt, BrandName);
    ReplaceAllOfFree(s, OpenAi, BrandName);
  }

  /** Two passes, `p1` then `p2`, keep a prefix in which neither starts. */
  lemma TwoPassKeepsPrefix(a: string, b: string, p1: string, p2: string, rep: string)
    requires |p1| > 0 && Separated(p2, rep)
    requires forall i :: 0 <= i < |a| ==> !MatchAt(a + b, i, p1) && !MatchAt(a + b, i, p2)
    ensures ReplaceAll(ReplaceAll(a + b, p1, rep), p2, rep)
            == a + ReplaceAll(ReplaceAll(b, p1, rep), p2, rep)
  {
    KeepsUnmatchedPrefix(a, b, p1, rep);
    PrefixStaysUnmatched(a, b, p1, p2, rep);
    KeepsUnmatchedPrefix(a, ReplaceAll(b, p1, rep), p2, rep);
  }

  /** Two passes, when the first name to start is an occurrence `m` of `p1`. */
  lemma TwoPassReplacesFirst(a: string, m: string, b: string, p1: string, p2: string, rep: string)
    requires |p1| > 0 && Separated(p2, rep) && |m| == |p1| && MatchAt(m, 0, p1)
    requires forall i :: 0 <= i < |a| ==> !MatchAt(a + (m + b), i, p1) && !MatchAt(a + (m + b), i, p2)
    ensures ReplaceAll(ReplaceAll(a + (m + b), p1, rep), p2, rep)
            == a + (rep + ReplaceAll(ReplaceAll(b, p1, rep), p2, rep))
  {
    var r1 := ReplaceAll(b, p1, rep);
    TwoPassKeepsPrefix(a, m + b, p1, p2, rep);
    ReplaceAtHead(m, b, p1, rep);
    RepLeadsNoMatch(rep, r1, p2);
    KeepsUnmatchedPrefix(rep, r1, p2, rep);
  }

  /** Two passes, when the first name to start is an occurrence `m` of `p2`
      in which `p1` cannot start. */
  lemma TwoPassReplacesSecond(a: string, m: string, b: string, p1: string, p2: string, rep: string)
    requires |p1| > 0 && |p2| > 0 && |m| == |p2| && MatchAt(m, 0, p2)
    requires forall k :: 0 <= k < |p2| ==> Lower(p2[k]) != Lower(p1[0])
    requires forall i :: 0 <= i < |a| ==> !MatchAt((a + m) + b, i, p1) && !MatchAt((a + m) + b, i, p2)
    ensures ReplaceAll(ReplaceAll((a + m) + b, p1, rep), p2, rep)
            == a + (rep + ReplaceAll(ReplaceAll(b, p1, rep), p2, rep))
  {
    var r1 := ReplaceAll(b, p1, rep);
    FirstPassKeepsOccurrence(a, m, b, p1, p2, rep);
    SecondPassKeepsPrefix(a, m, b, r1, p2);
    assert (a + m) + r1 == a + (m + r1);
    KeepsUnmatchedPrefix(a, m + r1, p2, rep);
    ReplaceAtHead(m, r1, p2, rep);
  }

  lemma FirstPassKeepsOccurrence(a: string, m: string, b: string, p1: string, p2: string, rep: string)
    requires |p1| > 0 && |m| == |p2| && MatchAt(m, 0, p2)
    requires forall k :: 0 <= k < |p2| ==> Lower(p2[k]) != Lower(p1[0])
    requires forall i :: 0 <= i < |a| ==> !MatchAt((a + m) + b, i, p1)
    ensures ReplaceAll((a + m) + b, p1, rep) == (a + m) + ReplaceAll(b, p1, rep)
  {
    forall i | |a| <= i < |a + m| ensures !MatchAt((a + m) + b, i, p1) {
      NoStartInside(a, m, b, p1, p2, i - |a|);
    }
    KeepsUnmatchedPrefix(a + m, b, p1, rep);
  }

  lemma SecondPassKeepsPrefix(a: string, m: string, b: string, r1: string, p2: string)
    requires |m| == |p2|
    requires forall i :: 0 <= i < |a| ==> !MatchAt((a + m) + b, i, p2)
    ensures forall i :: 0 <= i < |a| ==> !MatchAt(a + (m + r1), i, p2)
  {
    assert (a + m) + r1 == a + (m + r1);
    forall i | 0 <= i < |a| ensures !MatchAt((a + m) + r1, i, p2) {
      SamePrefixSameMatch(a + m, b, r1, i, p2);
    }
  }

  /** `p1` cannot start inside an occurrence `m` of `p2` none of whose
      letters folds to the first letter of `p1`. */
  lemma NoStartInside(a: string, m: string, b: string, p1: string, p2: string, k: nat)
    requires |p1| > 0 && |m| == |p2| && MatchAt(m, 0, p2) && k < |m|
    requires forall k :: 0 <= k < |p2| ==> Lower(p2[k]) != Lower(p1[0])
    ensures !MatchAt((a + m) + b, |a| + k, p1)
  {
    assert Lower(m[0 + k]) == Lower(p2[k]);
    assert ((a + m) + b)[|a| + k + 0] == m[k];
  }

  /** "OpenAI" contains no letter that could start "ChatGPT". */
  lemma OpenAiAvoidsChatGptHead()
    ensures forall k :: 0 <= k < |OpenAi| ==> Lower(OpenAi[k]) != Lower(ChatGpt[0])
  {
    assert OpenAi == ['O', 'p', 'e', 'n', 'A', 'I'] && ChatGpt[0] == 'C';
  }

  /** The filter keeps any text in which no vendor name starts. */
  lemma BrandSwapKeepsPrefix(a: string, b: string)
    requires forall i :: 0 <= i < |a| ==> !MatchAt(a + b, i, ChatGpt) && !MatchAt(a + b, i, OpenAi)
    ensures BrandSwap(Some(a + b)) == a + BrandSwap(Some(b))
  {
    BrandSeparated();
    TwoPassKeepsPrefix(a, b, ChatGpt, OpenAi, BrandName);
  }

  /** The first vendor name, when it is "ChatGPT" in any case, becomes
      "SzalAI"; the text before it is kept. */
  lemma BrandSwapReplacesChatGpt(a: string, m: string, b: string)
    requires |m| == |ChatGpt| && MatchAt(m, 0, ChatGpt)
    requires forall i :: 0 <= i < |a| ==> !MatchAt(a + m + b, i, ChatGpt) && !MatchAt(a + m + b, i, OpenAi)
    ensures BrandSwap(Some(a + m + b)) == a + BrandName + BrandSwap(Some(b))
  {
    BrandSeparated();
    assert a + m + b == a + (m + b);
    TwoPassReplacesFirst(a, m, b, ChatGpt, OpenAi, BrandName);
    assert a + (BrandName + BrandSwap(Some(b))) == a + BrandName + BrandSwap(Some(b));
  }

  /** The first vendor name, when it is "OpenAI" in any case, becomes
      "SzalAI"; the text before it is kept. */
  lemma BrandSwapReplacesOpenAi(a: string, m: string, b: string)
    requires |m| == |OpenAi| && MatchAt(m, 0, OpenAi)
    requires forall i :: 0 <= i < |a| ==> !MatchAt(a + m + b, i, ChatGpt) && !MatchAt(a + m + b, i, OpenAi)
    ensures BrandSwap(Some(a + m + b)) == a + BrandName + BrandSwap(Some(b))
  {
    OpenAiAvoidsChatGptHead();
    TwoPassReplacesSecond(a, m, b, ChatGpt, OpenAi, BrandName);
    assert a + (BrandName + BrandSwap(Some(b))) == a + BrandName + BrandSwap(Some(b));
  }

  /** Filtering twice is filtering once. */
  lemma BrandSwapIdempotent(text: Option<string>)
    ensures BrandSwap(Some(BrandSwap(text))) == BrandSwap(text)
  {
    BrandSwapRemovesNames(text);
    BrandSwapKeepsClean(BrandSwap(text));
  }
}
