/** Space-separated token lists, the format of a WGL/OpenGL extension
    string ("WGL_ARB_a WGL_ARB_b ...").

    Two views of "w is one of the tokens of s" are defined here: the
    positional one the extension scan checks (an occurrence of `w` that
    starts at the beginning of `s` or after a space, and ends at the end of
    `s` or before a space), and membership in the list of tokens obtained
    by cutting `s` at every space. They are proved to agree for a name
    without spaces; a name with a space can match across tokens. */
module Tokens {
  import opened CStrings

  /** Index `i` is where a token begins: the start of the string or just
      after a space. */
  predicate StartsToken(s: string, i: nat)
    requires i <= |s|
  {
    i == 0 || s[i - 1] == ' '
  }

  /** Index `j` is where a token ends: the end of the string or a space. */
  predicate EndsToken(s: string, j: nat)
    requires j <= |s|
  {
    j == |s| || s[j] == ' '
  }

  /** `w` occurs at `i` and both ends of the occurrence are token
      boundaries. */
  predicate WholeTokenAt(s: string, w: string, i: nat)
  {
    OccursAt(s, w, i) && StartsToken(s, i) && EndsToken(s, i + |w|)
  }

  /** Some occurrence of `w` in `s` is a whole token. */
  predicate HasWholeToken(s: string, w: string)
  {
    exists i :: 0 <= i <= |s| && WholeTokenAt(s, w, i)
  }

  /** The index of the first space in `s`, or `|s|` when there is none. */
  function FirstSpace(s: string): (k: nat)
    ensures k <= |s|
    ensures forall j :: 0 <= j < k ==> s[j] != ' '
    ensures k < |s| ==> s[k] == ' '
  {
    if |s| == 0 || s[0] == ' ' then 0 else 1 + FirstSpace(s[1..])
  }

  /** The tokens of `s`: the pieces between consecutive spaces. A string
      with `n` spaces has `n + 1` tokens, some of which may be empty. */
  function Split(s: string): (ts: seq<string>)
    ensures |ts| >= 1
    decreases |s|
  {
    var k := FirstSpace(s);
    if k == |s| then [s] else [s[..k]] + Split(s[k + 1..])
  }

  /** No token contains a space. */
  lemma {:induction false} SplitTokensSpaceFree(s: string)
    ensures forall k :: 0 <= k < |Split(s)| ==> ' ' !in Split(s)[k]
    decreases |s|
  {
    var f := FirstSpace(s);
    if f < |s| {
      SplitAtFirstSpace(s);
      SplitTokensSpaceFree(s[f + 1..]);
    }
  }

  /** Tokens glued back together with a single space between neighbours. */
  function Join(ts: seq<string>): string
    requires |ts| >= 1
  {
    if |ts| == 1 then ts[0] else ts[0] + " " + Join(ts[1..])
  }

  /** Cutting a string at its spaces and gluing the pieces back together
      gives the string back. */
  lemma {:induction false} JoinSplit(s: string)
    ensures Join(Split(s)) == s
    decreases |s|
  {
    var k := FirstSpace(s);
    if k < |s| {
      var rest := s[k + 1..];
      SplitAtFirstSpace(s);
      JoinCons(s[..k], Split(rest));
      JoinSplit(rest);
      assert s == s[..k] + " " + rest;
    }
  }

  /** Gluing space-free tokens and cutting the result gives the tokens
      back. */
  lemma {:induction false} SplitJoin(ts: seq<string>)
    requires |ts| >= 1
    requires forall t :: t in ts ==> ' ' !in t
    ensures Split(Join(ts)) == ts
    decreases |ts|
  {
    var s := Join(ts);
    if |ts| == 1 {
      FirstSpaceOfSpaceFree(s);
    } else {
      var head := ts[0];
      var tail := ts[1..];
      assert ts == [head] + tail;
      assert forall t :: t in tail ==> t in ts;
      JoinCons(head, tail);
      FirstSpaceAfter(head, Join(tail));
      SplitAtFirstSpace(s);
      assert s[|head| + 1..] == Join(tail);
      assert s[..|head|] == head;
      SplitJoin(tail);
    }
  }

  /** One step of `Split` at the first space. */
  lemma {:induction false} SplitAtFirstSpace(s: string)
    requires FirstSpace(s) < |s|
    ensures Split(s) == [s[..FirstSpace(s)]] + Split(s[FirstSpace(s) + 1..])
  {
  }

  /** One step of `Join` at the first token. */
  lemma {:induction false} JoinCons(head: string, tail: seq<string>)
    requires |tail| >= 1
    ensures Join([head] + tail) == head + " " + Join(tail)
  {
    assert ([head] + tail)[1..] == tail;
  }

  lemma {:induction false} FirstSpaceOfSpaceFree(s: string)
    requires ' ' !in s
    ensures FirstSpace(s) == |s|
  {
  }

  lemma {:induction false} FirstSpaceAfter(head: string, rest: string)
    requires ' ' !in head
    ensures FirstSpace(head + " " + rest) == |head|
  {
    assert (head + " " + rest)[|head|] == ' ';
  }

  /** In a string without spaces, the only whole token is the string
      itself. */
  lemma {:induction false} SpaceFreeWholeToken(s: string, w: string)
    requires ' ' !in s
    ensures HasWholeToken(s, w) <==> w == s
  {
    if HasWholeToken(s, w) {
      var i :| 0 <= i <= |s| && WholeTokenAt(s, w, i);
      assert s[0..|w|] == w;
    }
    if w == s {
      assert WholeTokenAt(s, w, 0);
    }
  }

  /** A whole-token occurrence of a space-free `w` that starts no later than
      the first space of `s` is exactly the first token. */
  lemma {:induction false} TokenBeforeFirstSpace(s: string, w: string, i: nat)
    requires ' ' !in w
    requires FirstSpace(s) < |s|
    requires i <= FirstSpace(s)
    requires WholeTokenAt(s, w, i)
    ensures i == 0 && w == s[..FirstSpace(s)]
  {
  }

  /** Cutting `s` just after a space keeps every whole token to the right
      of the cut a whole token, shifted left by the cut. */
  lemma {:induction false} TokenAfterCut(s: string, w: string, d: nat, i: nat)
    requires 0 < d <= i <= |s|
    requires s[d - 1] == ' '
    requires WholeTokenAt(s, w, i)
    ensures WholeTokenAt(s[d..], w, i - d)
  {
    var rest := s[d..];
    assert rest[i - d..i - d + |w|] == s[i..i + |w|];
  }

  /** Conversely, a whole token right of such a cut is a whole token of
      `s`. */
  lemma {:induction false} TokenBeforeCut(s: string, w: string, d: nat, j: nat)
    requires 0 < d <= |s|
    requires s[d - 1] == ' '
    requires WholeTokenAt(s[d..], w, j)
    ensures WholeTokenAt(s, w, j + d)
  {
    var rest := s[d..];
    assert s[j + d..j + d + |w|] == rest[j..j + |w|];
  }

  /** The positional and the list view of a whole token agree, for every
      token list and every space-free name. */
  lemma {:induction false} WholeTokenIffInSplit(s: string, w: string)
    requires ' ' !in w
    ensures HasWholeToken(s, w) <==> w in Split(s)
    decreases |s|
  {
    var k := FirstSpace(s);
    if k == |s| {
      SpaceFreeWholeToken(s, w);
    } else {
      var rest := s[k + 1..];
      SplitAtFirstSpace(s);
      WholeTokenIffInSplit(rest, w);
      if HasWholeToken(s, w) {
        WholeTokenInFirstOrRest(s, w);
      }
      if w in Split(s) {
        FirstOrRestIsWholeToken(s, w);
      }
    }
  }

  /** A whole token of `s` is its first token or a whole token of what
      follows the first space. */
  lemma {:induction false} WholeTokenInFirstOrRest(s: string, w: string)
    requires ' ' !in w
    requires FirstSpace(s) < |s|
    requires HasWholeToken(s, w)
    ensures w == s[..FirstSpace(s)] || HasWholeToken(s[FirstSpace(s) + 1..], w)
  {
    var k := FirstSpace(s);
    var i :| 0 <= i <= |s| && WholeTokenAt(s, w, i);
    if i <= k {
      TokenBeforeFirstSpace(s, w, i);
    } else {
      TokenAfterCut(s, w, k + 1, i);
    }
  }

  /** Conversely, the first token and every whole token of what follows the
      first space are whole tokens of `s`. */
  lemma {:induction false} FirstOrRestIsWholeToken(s: string, w: string)
    requires FirstSpace(s) < |s|
    requires w == s[..FirstSpace(s)] || HasWholeToken(s[FirstSpace(s) + 1..], w)
    ensures HasWholeToken(s, w)
  {
    var k := FirstSpace(s);
    if w == s[..k] {
      assert WholeTokenAt(s, w, 0);
    } else {
      var rest := s[k + 1..];
      var j :| 0 <= j <= |rest| && WholeTokenAt(rest, w, j);
      TokenBeforeCut(s, w, k + 1, j);
    }
  }
}
