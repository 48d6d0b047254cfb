/** The class-string convention: a class attribute is one string whose tokens
    are separated by single spaces. `Split` and `Join` model JavaScript's
    `s.split(' ')` and `tokens.join(' ')`, and `IndexOf` models
    `Array.prototype.indexOf` with strict (exact, case-sensitive) equality.
 */
module Tokens {

  /** The only separator the class attribute uses. */
  const Space: char := ' '

  /** Number of occurrences of `ch` in `s`. */
  function Count(ch: char, s: string): (n: nat)
  {
    if |s| == 0 then 0 else (if s[0] == ch then 1 else 0) + Count(ch, s[1..])
  }

  /** `s.split(' ')`: never empty, one more token than there are spaces, and
      no token holds a space. Adjacent, leading or trailing spaces give empty
      tokens; `""` splits to `[""]`. */
  function Split(s: string): (r: seq<string>)
    ensures |r| == Count(Space, s) + 1
    ensures forall k :: 0 <= k < |r| ==> Space !in r[k]
    decreases |s|
  {
    if |s| == 0 then [""]
    else
      var rest := Split(s[1..]);
      if s[0] == Space then [""] + rest
      else [[s[0]] + rest[0]] + rest[1..]
  }

  /** `tokens.join(' ')`; the empty list joins to the empty string. */
  function Join(ts: seq<string>): (s: string)
  {
    if |ts| == 0 then ""
    else if |ts| == 1 then ts[0]
    else ts[0] + [Space] + Join(ts[1..])
  }

  /** `ts.indexOf(c)`: -1 when `c` is absent, otherwise the first index
      holding `c`. */
  function IndexOf(ts: seq<string>, c: string): (k: int)
    ensures -1 <= k < |ts|
    ensures k == -1 <==> c !in ts
    ensures 0 <= k ==> ts[k] == c && forall j :: 0 <= j < k ==> ts[j] != c
  {
    if |ts| == 0 then -1
    else if ts[0] == c then 0
    else
      var k := IndexOf(ts[1..], c);
      if k == -1 then -1 else k + 1
  }

  /** True when every token is free of spaces, as every token `Split` makes is. */
  predicate SpaceFree(ts: seq<string>)
  {
    forall k :: 0 <= k < |ts| ==> Space !in ts[k]
  }

  /** Index of the first space in `s`, or `|s|` when there is none. */
  function FirstSpace(s: string): (p: nat)
    ensures p <= |s|
    ensures Space !in s[..p]
    ensures p < |s| ==> s[p] == Space
  {
    if |s| == 0 || s[0] == Space then 0
    else
      var p := FirstSpace(s[1..]);
      assert s[..p + 1] == [s[0]] + s[1..][..p];
      p + 1
  }

  /** `c` occurs in `s` at index `i` bounded on each side by a space or by an
      end of the string: `c` is a whole token there, not part of a longer one. */
  predicate TokenAt(s: string, c: string, i: nat)
  {
    && i + |c| <= |s|
    && s[i..i + |c|] == c
    && (i == 0 || s[i - 1] == Space)
    && (i + |c| == |s| || s[i + |c|] == Space)
  }

  /** Splitting a space-free prefix glues it onto the first token of the rest. */
  lemma {:induction false} SplitPrefix(t: string, s: string)
    requires Space !in t
    ensures Split(t + s) == [t + Split(s)[0]] + Split(s)[1..]
    decreases |t|
  {
    if |t| == 0 {
      assert t + s == s;
      assert t + Split(s)[0] == Split(s)[0];
    } else {
      assert (t + s)[0] == t[0];
      assert (t + s)[1..] == t[1..] + s;
      assert Space !in t[1..] by {
        forall k | 0 <= k < |t[1..]| ensures t[1..][k] != Space {
          assert t[1..][k] == t[k + 1];
        }
      }
      SplitPrefix(t[1..], s);
      assert [t[0]] + (t[1..] + Split(s)[0]) == t + Split(s)[0];
    }
  }

  /** A string without spaces is a single token. */
  lemma SplitSpaceFreeString(t: string)
    requires Space !in t
    ensures Split(t) == [t]
  {
    SplitPrefix(t, "");
    assert t + "" == t;
  }

  /** A space-free token followed by a space splits off as the first token. */
  lemma SplitCons(t: string, s: string)
    requires Space !in t
    ensures Split(t + [Space] + s) == [t] + Split(s)
  {
    assert t + [Space] + s == t + ([Space] + s);
    assert ([Space] + s)[1..] == s;
    SplitPrefix(t, [Space] + s);
    assert t + "" == t;
  }

  /** A string cut at a space. */
  lemma CutAtSpace(s: string, p: nat)
    requires p < |s| && s[p] == Space
    ensures s == s[..p] + [Space] + s[p + 1..]
  {
    assert s[p..] == [Space] + s[p + 1..];
    assert s == s[..p] + s[p..];
  }

  /** `s` is its first token, then (if there is a space) a space and the rest. */
  lemma SplitAtFirstSpace(s: string)
    ensures FirstSpace(s) == |s| ==> Split(s) == [s]
    ensures FirstSpace(s) < |s| ==>
      Split(s) == [s[..FirstSpace(s)]] + Split(s[FirstSpace(s) + 1..])
  {
    var p := FirstSpace(s);
    if p == |s| {
      assert s[..p] == s;
      SplitSpaceFreeString(s);
    } else {
      CutAtSpace(s, p);
      SplitCons(s[..p], s[p + 1..]);
    }
  }

  /** A token of the text after a space is a token of the whole string, at the
      shifted index, and conversely. */
  lemma TokenAtShift(s: string, p: nat, c: string, j: nat)
    requires p < |s| && s[p] == Space
    ensures TokenAt(s[p + 1..], c, j) <==> TokenAt(s, c, p + 1 + j)
  {
    var t := s[p + 1..];
    if p + 1 + j + |c| <= |s| {
      assert s[p + 1 + j..p + 1 + j + |c|] == t[j..j + |c|];
      assert j > 0 ==> s[p + j] == t[j - 1];
      assert j + |c| < |t| ==> s[p + 1 + j + |c|] == t[j + |c|];
    }
  }

  /** `q` is the first space (or the end) as soon as no space comes before it. */
  lemma {:induction false} FirstSpaceIs(s: string, q: nat)
    requires q <= |s|
    requires Space !in s[..q]
    requires q == |s| || s[q] == Space
    ensures FirstSpace(s) == q
    decreases q
  {
    if q > 0 {
      assert s[..q][0] == s[0];
      assert s[1..][..q - 1] == s[1..q];
      assert Space !in s[1..q] by {
        forall k | 0 <= k < q - 1 ensures s[1..q][k] != Space {
          assert s[1..q][k] == s[..q][k + 1];
        }
      }
      FirstSpaceIs(s[1..], q - 1);
    }
  }

  /** No space comes before the first space. */
  lemma {:induction false} FirstSpaceBound(s: string, q: nat)
    requires q < |s| && s[q] == Space
    ensures FirstSpace(s) <= q
    decreases q
  {
    if s[0] != Space {
      assert s[1..][q - 1] == s[q];
      FirstSpaceBound(s[1..], q - 1);
    }
  }

  /** Round trip: joining the split tokens gives back the string exactly, so
      irregular spacing is preserved, never collapsed. */
  lemma {:induction false} JoinSplit(s: string)
    ensures Join(Split(s)) == s
    decreases |s|
  {
    if |s| == 0 {
    } else {
      var rest := Split(s[1..]);
      JoinSplit(s[1..]);
      if s[0] == Space {
        assert Split(s) == [""] + rest;
        assert ([""] + rest)[1..] == rest;
        assert s == [Space] + s[1..];
      } else {
        var ts := [[s[0]] + rest[0]] + rest[1..];
        assert Split(s) == ts;
        if |rest| == 1 {
          assert Join(rest) == rest[0];
          assert s == [s[0]] + s[1..];
        } else {
          assert ts[1..] == rest[1..];
          assert Join(rest) == rest[0] + [Space] + Join(rest[1..]);
          assert Join(ts) == [s[0]] + Join(rest);
          assert s == [s[0]] + s[1..];
        }
      }
    }
  }

  /** Round trip the other way: a non-empty list of space-free tokens survives
      joining and splitting unchanged. */
  lemma {:induction false} SplitJoin(ts: seq<string>)
    requires |ts| >= 1
    requires SpaceFree(ts)
    ensures Split(Join(ts)) == ts
    decreases |ts|
  {
    if |ts| == 1 {
      SplitSpaceFreeString(ts[0]);
    } else {
      assert SpaceFree(ts[1..]) by {
        forall k | 0 <= k < |ts[1..]| ensures Space !in ts[1..][k] {
          assert ts[1..][k] == ts[k + 1];
        }
      }
      SplitJoin(ts[1..]);
      assert Space !in ts[0];
      SplitCons(ts[0], Join(ts[1..]));
      assert [ts[0]] + ts[1..] == ts;
    }
  }

  /** Joining one more token appends a space and that token. */
  lemma {:induction false} JoinAppend(ts: seq<string>, c: string)
    requires |ts| >= 1
    ensures Join(ts + [c]) == Join(ts) + [Space] + c
    decreases |ts|
  {
    if |ts| == 1 {
      assert ts + [c] == [ts[0], c];
      assert [ts[0], c][1..] == [c];
    } else {
      assert (ts + [c])[1..] == ts[1..] + [c];
      JoinAppend(ts[1..], c);
    }
  }

  /** Appending a space-free token to a string adds exactly that token to its
      split. */
  lemma SplitAppend(s: string, c: string)
    requires Space !in c
    ensures Split(s + [Space] + c) == Split(s) + [c]
  {
    var ts := Split(s);
    JoinSplit(s);
    JoinAppend(ts, c);
    assert SpaceFree(ts + [c]) by {
      forall k | 0 <= k < |ts + [c]| ensures Space !in (ts + [c])[k] {
        if k < |ts| { assert (ts + [c])[k] == ts[k]; }
      }
    }
    SplitJoin(ts + [c]);
  }

  /** Exact-token membership: `c` is one of the tokens of `s` if and only if it
      has no space and stands in `s` as a whole space-delimited token. Being a
      substring of a longer token is not enough. */
  lemma TokenIff(s: string, c: string)
    ensures c in Split(s) <==> Space !in c && exists i: nat :: TokenAt(s, c, i)
  {
    if c in Split(s) {
      TokenSound(s, c);
    }
    if Space !in c && exists i: nat :: TokenAt(s, c, i) {
      var i: nat :| TokenAt(s, c, i);
      TokenComplete(s, c, i);
    }
  }

  lemma {:induction false} TokenSound(s: string, c: string)
    requires c in Split(s)
    ensures Space !in c
    ensures exists i: nat :: TokenAt(s, c, i)
    decreases |s|
  {
    var p := FirstSpace(s);
    SplitAtFirstSpace(s);
    if p == |s| {
      assert c == s;
      assert s[0..|c|] == s;
      assert TokenAt(s, c, 0);
    } else if c == s[..p] {
      assert s[0..|c|] == s[..p];
      assert TokenAt(s, c, 0);
    } else {
      var t := s[p + 1..];
      assert c in Split(t);
      TokenSound(t, c);
      var j: nat :| TokenAt(t, c, j);
      TokenAtShift(s, p, c, j);
    }
  }

  /** A space-free name at the start of `s`, ended by a space or the end of
      the string, is the first token. */
  lemma FirstTokenIn(s: string, c: string)
    requires Space !in c
    requires TokenAt(s, c, 0)
    ensures c in Split(s)
  {
    assert s[..|c|] == c;
    FirstSpaceIs(s, |c|);
    SplitAtFirstSpace(s);
    if |c| == |s| {
      assert c == s;
    }
  }

  lemma {:induction false} TokenComplete(s: string, c: string, i: nat)
    requires Space !in c
    requires TokenAt(s, c, i)
    ensures c in Split(s)
    decreases |s|
  {
    var p := FirstSpace(s);
    SplitAtFirstSpace(s);
    if i == 0 {
      FirstTokenIn(s, c);
    } else {
      FirstSpaceBound(s, i - 1);
      var j: nat := i - p - 1;
      TokenAtShift(s, p, c, j);
      TokenComplete(s[p + 1..], c, j);
    }
  }

  /** The class string is empty or has a leading, trailing or doubled space:
      the places where splitting leaves an empty token. */
  predicate StraySpace(s: string)
  {
    || s == ""
    || s[0] == Space
    || s[|s| - 1] == Space
    || exists i :: 0 < i < |s| && s[i - 1] == Space && s[i] == Space
  }

  /** The empty string is one of the tokens exactly where there is stray
      spacing. */
  lemma EmptyTokenIff(s: string)
    ensures "" in Split(s) <==> StraySpace(s)
  {
    TokenIff(s, "");
    if "" in Split(s) {
      var i: nat :| TokenAt(s, "", i);
      EmptyTokenStray(s, i);
    }
    if StraySpace(s) {
      StrayEmptyToken(s);
    }
  }

  lemma EmptyTokenStray(s: string, i: nat)
    requires TokenAt(s, "", i)
    ensures StraySpace(s)
  {
    if 0 < i < |s| {
      assert s[i - 1] == Space && s[i] == Space;
    }
  }

  lemma StrayEmptyToken(s: string)
    requires StraySpace(s)
    ensures exists i: nat :: TokenAt(s, "", i)
  {
    if s == "" || s[0] == Space {
      assert TokenAt(s, "", 0);
    } else if s[|s| - 1] == Space {
      assert TokenAt(s, "", |s|);
    } else {
      var i :| 0 < i < |s| && s[i - 1] == Space && s[i] == Space;
      assert TokenAt(s, "", i);
    }
  }
}
