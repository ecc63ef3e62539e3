/** The few JavaScript string operations the form handler relies on:
    `String.prototype.trim`, a first-index search and `String.prototype.replace`
    with a string pattern (which replaces only the first occurrence). */
module JsString {

  /** LineTerminator code points of ECMAScript (section 12.3 of ECMA-262). */
  predicate IsLineTerminator(c: char) {
    c == '\n' || c == '\r' || c == '\U{2028}' || c == '\U{2029}'
  }

  /** The code points `trim` removes: ECMAScript WhiteSpace (section 12.2 of
      ECMA-262: TAB, VT, FF, ZWNBSP and the Space_Separator category, taken
      here as of Unicode 15) together with the line terminators. The same set
      is what `\s` matches in a regular expression. */
  predicate IsWhitespace(c: char) {
    || c == '\t' || c == '\U{000B}' || c == '\U{000C}' || c == '\U{FEFF}'
    || c == ' ' || c == '\U{00A0}' || c == '\U{1680}'
    || ('\U{2000}' <= c <= '\U{200A}')
    || c == '\U{202F}' || c == '\U{205F}' || c == '\U{3000}'
    || IsLineTerminator(c)
  }

  predicate AllWhitespace(s: string) {
    forall k :: 0 <= k < |s| ==> IsWhitespace(s[k])
  }

  /** Neither end of `s` is whitespace. */
  predicate IsTrimmed(s: string) {
    s == [] || (!IsWhitespace(s[0]) && !IsWhitespace(s[|s| - 1]))
  }

  /** `s` with its leading whitespace removed: a suffix of `s`, everything
      dropped is whitespace, and what is left does not start with whitespace. */
  function TrimStart(s: string): (r: string)
    ensures |r| <= |s| && r == s[|s| - |r|..]
    ensures AllWhitespace(s[..|s| - |r|])
    ensures r == [] || !IsWhitespace(r[0])
  {
    if s != [] && IsWhitespace(s[0]) then TrimStart(s[1..]) else s
  }

  /** `s` with its trailing whitespace removed: a prefix of `s`, everything
      dropped is whitespace, and what is left does not end with whitespace. */
  function TrimEnd(s: string): (r: string)
    ensures |r| <= |s| && r == s[..|r|]
    ensures AllWhitespace(s[|r|..])
    ensures r == [] || !IsWhitespace(r[|r| - 1])
  {
    if s != [] && IsWhitespace(s[|s| - 1]) then TrimEnd(s[..|s| - 1]) else s
  }

  /** `String.prototype.trim`: the longest slice of `s` whose ends are not
      whitespace; it is empty exactly when `s` is all whitespace. */
  function Trim(s: string): (r: string)
    ensures IsTrimmed(r)
    ensures |r| <= |s|
    ensures r == [] <==> AllWhitespace(s)
  {
    var t := TrimStart(s);
    var r := TrimEnd(t);
    TrimParts(s, t, r);
    r
  }

  /** Trimming the front and then the back leaves a slice of `s` that is
      empty only when `s` is all whitespace. */
  lemma TrimParts(s: string, t: string, r: string)
    requires |t| <= |s| && t == s[|s| - |t|..] && AllWhitespace(s[..|s| - |t|])
    requires t == [] || !IsWhitespace(t[0])
    requires |r| <= |t| && r == t[..|r|] && AllWhitespace(t[|r|..])
    requires r == [] || !IsWhitespace(r[|r| - 1])
    ensures IsTrimmed(r)
    ensures r == s[|s| - |t|..|s| - |t| + |r|]
    ensures r == [] <==> AllWhitespace(s)
  {
    if r == [] {
      assert t[|r|..] == t;
      BlankWhenTrimEmpty(s, t);
    } else {
      assert r[0] == t[0];
    }
  }

  /** Whitespace before the suffix `t` and a whitespace-only `t` make `s`
      whitespace throughout. */
  lemma BlankWhenTrimEmpty(s: string, t: string)
    requires |t| <= |s| && t == s[|s| - |t|..]
    requires AllWhitespace(s[..|s| - |t|]) && AllWhitespace(t)
    ensures AllWhitespace(s)
  {
    forall k | 0 <= k < |s| ensures IsWhitespace(s[k]) {
      if k >= |s| - |t| {
        assert s[k] == t[k - (|s| - |t|)];
      } else {
        assert s[k] == s[..|s| - |t|][k];
      }
    }
  }

  /** A trimmed string is left alone by `trim`, so `trim` is idempotent. */
  lemma {:induction false} TrimOfTrimmed(s: string)
    requires IsTrimmed(s)
    ensures Trim(s) == s
  {
    assert TrimStart(s) == s;
    assert TrimEnd(s) == s;
  }

  lemma TrimIdempotent(s: string)
    ensures Trim(Trim(s)) == Trim(s)
  {
    TrimOfTrimmed(Trim(s));
  }

  /** Whitespace put in front of a string is all that `TrimStart` removes
      from it then. */
  lemma {:induction false} TrimStartSkipsPad(pad: string, s: string)
    requires AllWhitespace(pad)
    ensures TrimStart(pad + s) == TrimStart(s)
    decreases |pad|
  {
    if pad != [] {
      assert (pad + s)[0] == pad[0];
      assert (pad + s)[1..] == pad[1..] + s;
      TrimStartSkipsPad(pad[1..], s);
    } else {
      assert pad + s == s;
    }
  }

  /** Whitespace put after a string is all that `TrimEnd` removes from it
      then. */
  lemma {:induction false} TrimEndSkipsPad(s: string, pad: string)
    requires AllWhitespace(pad)
    ensures TrimEnd(s + pad) == TrimEnd(s)
    decreases |pad|
  {
    if pad != [] {
      var p := s + pad;
      assert p[|p| - 1] == pad[|pad| - 1];
      assert p[..|p| - 1] == s + pad[..|pad| - 1];
      TrimEndSkipsPad(s, pad[..|pad| - 1]);
    } else {
      assert s + pad == s;
    }
  }

  /** Once a non-whitespace character stops `TrimStart`, what follows it is
      kept as it is. */
  lemma {:induction false} TrimStartKeepsTail(s: string, tail: string)
    requires TrimStart(s) != []
    ensures TrimStart(s + tail) == TrimStart(s) + tail
    decreases |s|
  {
    assert (s + tail)[0] == s[0];
    if IsWhitespace(s[0]) {
      assert (s + tail)[1..] == s[1..] + tail;
      TrimStartKeepsTail(s[1..], tail);
    }
  }

  /** A string of whitespace only loses everything to `TrimStart`. */
  lemma {:induction false} AllWhitespaceTrimsAway(s: string)
    requires AllWhitespace(s)
    ensures TrimStart(s) == []
    decreases |s|
  {
    if s != [] {
      assert IsWhitespace(s[0]);
      AllWhitespaceTrimsAway(s[1..]);
    }
  }

  /** `trim` is blind to whitespace padding on either side. */
  lemma TrimPadded(pad: string, s: string, pad': string)
    requires AllWhitespace(pad) && AllWhitespace(pad')
    ensures Trim(pad + s + pad') == Trim(s)
  {
    var p := pad + s + pad';
    var q := s + pad';
    assert p == pad + q;
    TrimStartSkipsPad(pad, q);
    assert TrimStart(p) == TrimStart(q);
    var t := TrimStart(s);
    if t != [] {
      TrimStartKeepsTail(s, pad');
      TrimEndSkipsPad(t, pad');
      calc {
        Trim(p);
        TrimEnd(TrimStart(q));
        TrimEnd(t + pad');
        TrimEnd(t);
        Trim(s);
      }
    } else {
      WhitespaceConcat(s, pad');
      AllWhitespaceTrimsAway(q);
      assert Trim(p) == TrimEnd([]);
    }
  }

  /** Two whitespace-only strings make a whitespace-only string; a string
      that `TrimStart` empties is whitespace only. */
  lemma WhitespaceConcat(s: string, pad: string)
    requires TrimStart(s) == [] && AllWhitespace(pad)
    ensures AllWhitespace(s + pad)
  {
    assert s[..|s|] == s;
    forall k | 0 <= k < |s + pad| ensures IsWhitespace((s + pad)[k]) {
      if k >= |s| {
        assert (s + pad)[k] == pad[k - |s|];
      } else {
        assert (s + pad)[k] == s[k];
      }
    }
  }

  /** The index of the first `c` in `s`, or `|s|` when `c` does not occur
      (where JavaScript's `indexOf` would answer -1). */
  function IndexOf(s: string, c: char): (i: nat)
    ensures i <= |s|
    ensures i < |s| ==> s[i] == c
    ensures forall k :: 0 <= k < i ==> s[k] != c
  {
    if s == [] then 0
    else if s[0] == c then 0
    else 1 + IndexOf(s[1..], c)
  }

  /** `s.replace(c, '')` with a one-character string pattern: only the first
      occurrence of `c` is removed; without one, `s` is returned unchanged. */
  function RemoveFirst(s: string, c: char): (r: string)
    ensures c !in s ==> r == s
    ensures c in s ==> |r| == |s| - 1 && multiset(r) == multiset(s) - multiset{c}
    ensures forall k :: 0 <= k < IndexOf(s, c) && k < |r| ==> r[k] == s[k]
  {
    var i := IndexOf(s, c);
    if i == |s| then s
    else
      assert s == s[..i] + [s[i]] + s[i + 1..];
      s[..i] + s[i + 1..]
  }

  /** Removing the first `c` from a string whose prefix `head` holds no `c`
      deletes exactly the `c` that follows `head`. */
  lemma RemoveFirstAfterPrefix(head: string, c: char, tail: string)
    requires c !in head
    ensures RemoveFirst(head + [c] + tail, c) == head + tail
  {
    var s := head + [c] + tail;
    assert s[|head|] == c;
    assert forall k :: 0 <= k < |head| ==> s[k] != c;
    assert IndexOf(s, c) == |head|;
    assert s[..|head|] == head;
    assert s[|head| + 1..] == tail;
  }
}
