/** An element handle, reduced to the three attributes the library reads:
    the class string, the id and the direct children. Elements are immutable
    values here; a mutator returns the updated element instead of writing an
    attribute in place. */
module Nodes {

  datatype Element = Element(className: string, id: string, children: seq<Element>)
}

/** `hasClass`, `addClass` and `removeClass`: membership, insertion and
    deletion of one token in the single-space-separated class string. */
module Classes {
  import opened Tokens
  import opened Nodes

  /** `hasClass`: `c` is exactly one of the tokens of the class string. */
  function HasClass(e: Element, c: string): (b: bool)
    ensures b <==> c in Split(e.className)
  {
    IndexOf(Split(e.className), c) != -1
  }

  /** `addClass`: append `c` to the tokens when it is absent, then always
      write the joined tokens back. Because joining the split tokens gives the
      string back exactly, the write-back never changes a class string that
      already holds `c`. */
  function AddClass(e: Element, c: string): (r: Element)
    ensures r.id == e.id && r.children == e.children
    ensures HasClass(e, c) ==> r.className == e.className
    ensures !HasClass(e, c) ==> r.className == e.className + [Space] + c
  {
    var classes := Split(e.className);
    var classes' := if !HasClass(e, c) then classes + [c] else classes;
    JoinSplit(e.className);
    JoinAppend(classes, c);
    e.(className := Join(classes'))
  }

  /** The token list `ts` with its first `c` taken out; `ts` itself when there
      is none. */
  function RemoveFirst(ts: seq<string>, c: string): (rest: seq<string>)
  {
    if |ts| == 0 then []
    else if ts[0] == c then ts[1..]
    else [ts[0]] + RemoveFirst(ts[1..], c)
  }

  /** `removeClass`: splice out the token at `indexOf(c)` when `c` is
      present, then always write the joined tokens back. */
  function RemoveClass(e: Element, c: string): (r: Element)
    ensures r.id == e.id && r.children == e.children
    ensures !HasClass(e, c) ==> r.className == e.className
    ensures HasClass(e, c) ==> r.className == Join(RemoveFirst(Split(e.className), c))
  {
    var classes := Split(e.className);
    if HasClass(e, c) then
      var k := IndexOf(classes, c);
      SpliceFirst(classes, c);
      e.(className := Join(classes[..k] + classes[k + 1..]))
    else
      JoinSplit(e.className);
      e.(className := Join(classes))
  }

  /** Splicing at `indexOf(c)` is taking out the first `c`. */
  lemma {:induction false} SpliceFirst(ts: seq<string>, c: string)
    requires c in ts
    ensures IndexOf(ts, c) >= 0
    ensures ts[..IndexOf(ts, c)] + ts[IndexOf(ts, c) + 1..] == RemoveFirst(ts, c)
  {
    if ts[0] != c {
      assert c in ts[1..] by {
        var k :| 0 <= k < |ts| && ts[k] == c;
        assert ts[1..][k - 1] == c;
      }
      SpliceFirst(ts[1..], c);
      var k := IndexOf(ts[1..], c);
      assert ts[..k + 1] == [ts[0]] + ts[1..][..k];
      assert ts[k + 2..] == ts[1..][k + 1..];
    }
  }

  /** Taking out a token leaves the others space-free. */
  lemma {:induction false} RemoveFirstSpaceFree(ts: seq<string>, c: string)
    requires SpaceFree(ts)
    ensures SpaceFree(RemoveFirst(ts, c))
  {
    if |ts| > 0 && ts[0] != c {
      assert SpaceFree(ts[1..]) by {
        forall k | 0 <= k < |ts| - 1 ensures Space !in ts[1..][k] {
          assert ts[1..][k] == ts[k + 1];
        }
      }
      RemoveFirstSpaceFree(ts[1..], c);
      var rest := RemoveFirst(ts[1..], c);
      forall k | 0 <= k < |rest| + 1 ensures Space !in ([ts[0]] + rest)[k] {
        if k > 0 {
          assert ([ts[0]] + rest)[k] == rest[k - 1];
        }
      }
    } else if |ts| > 0 {
      forall k | 0 <= k < |ts| - 1 ensures Space !in ts[1..][k] {
        assert ts[1..][k] == ts[k + 1];
      }
    }
  }

  /** Taking out the first `c` deletes exactly one token: the one at the first
      index holding `c`. Every other token keeps its place relative to the
      others, and exactly one occurrence of `c` is gone. */
  lemma {:induction false} RemoveFirstDeletesOne(ts: seq<string>, c: string)
    requires c in ts
    ensures |RemoveFirst(ts, c)| == |ts| - 1
    ensures exists k :: 0 <= k < |ts| && ts[k] == c && (forall j :: 0 <= j < k ==> ts[j] != c)
                        && RemoveFirst(ts, c) == ts[..k] + ts[k + 1..]
    ensures multiset(RemoveFirst(ts, c)) == multiset(ts) - multiset{c}
  {
    SpliceFirst(ts, c);
    var k := IndexOf(ts, c);
    var front, back := ts[..k], ts[k + 1..];
    assert ts == front + ([c] + back);
    assert multiset(ts) == multiset(front) + (multiset{c} + multiset(back));
    assert multiset(front + back) == multiset(front) + multiset(back);
  }

  /** A second occurrence of `c` survives taking out the first. */
  lemma RemoveFirstKeepsLater(ts: seq<string>, c: string, i: nat, j: nat)
    requires i < j < |ts| && ts[i] == c && ts[j] == c
    ensures c in RemoveFirst(ts, c)
  {
    SpliceFirst(ts, c);
    var k := IndexOf(ts, c);
    assert ts[i] == c;
    var rest := ts[..k] + ts[k + 1..];
    assert rest[j - 1] == c;
  }

  /** `hasClass` is an exact, case-sensitive token test on the raw class
      string: `c` must stand between spaces (or the ends of the string) and
      hold no space itself; a substring of a longer token does not count. */
  lemma HasClassExactToken(e: Element, c: string)
    ensures HasClass(e, c) <==> Space !in c && exists i: nat :: TokenAt(e.className, c, i)
  {
    TokenIff(e.className, c);
  }

  /** The empty-token quirk: `hasClass(el, "")` holds exactly when the class
      string is empty or has a leading, trailing or doubled space. */
  lemma HasEmptyClass(e: Element)
    ensures HasClass(e, "") <==> StraySpace(e.className)
  {
    EmptyTokenIff(e.className);
  }

  /** No token holds a space, so a class name with a space is never found. */
  lemma SpacedNameNeverPresent(e: Element, c: string)
    requires Space in c
    ensures !HasClass(e, c)
  {
  }

  /** After `addClass` with a space-free name the class is present, and the
      tokens are the old tokens followed by `c` when it was absent. */
  lemma AddClassAddsToken(e: Element, c: string)
    requires Space !in c
    ensures HasClass(AddClass(e, c), c)
    ensures !HasClass(e, c) ==>
      Split(AddClass(e, c).className) == Split(e.className) + [c]
  {
    if !HasClass(e, c) {
      SplitAppend(e.className, c);
      var ts := Split(e.className) + [c];
      assert ts[|ts| - 1] == c;
    }
  }

  /** `addClass` is idempotent exactly for class names without a space. A name
      with a space is written as two or more tokens, is never found again, and
      is appended once more on every call. */
  lemma AddClassIdempotent(e: Element, c: string)
    ensures AddClass(AddClass(e, c), c) == AddClass(e, c) <==> Space !in c
  {
    if Space !in c {
      AddClassAddsToken(e, c);
    } else {
      SpacedNameNeverPresent(e, c);
      SpacedNameNeverPresent(AddClass(e, c), c);
      assert |AddClass(AddClass(e, c), c).className| > |AddClass(e, c).className|;
    }
  }

  /** `removeClass` on a present class deletes exactly the first matching
      token: when at least two tokens were there, the new class string splits
      into the old tokens without that one, one token fewer. When `c` was the
      only token, the class string becomes empty. */
  lemma RemoveClassDeletesFirst(e: Element, c: string)
    requires HasClass(e, c)
    ensures |Split(e.className)| == 1 ==> RemoveClass(e, c).className == ""
    ensures |Split(e.className)| >= 2 ==>
      && Split(RemoveClass(e, c).className) == RemoveFirst(Split(e.className), c)
      && |Split(RemoveClass(e, c).className)| == |Split(e.className)| - 1
      && multiset(Split(RemoveClass(e, c).className))
         == multiset(Split(e.className)) - multiset{c}
  {
    var ts := Split(e.className);
    var rest := RemoveFirst(ts, c);
    RemoveFirstDeletesOne(ts, c);
    if |ts| >= 2 {
      RemoveFirstSpaceFree(ts, c);
      SplitJoin(rest);
    } else {
      assert rest == [];
    }
  }

  /** With duplicate `c` tokens, `removeClass` takes out only one of them, so
      the class is still present afterwards. */
  lemma RemoveClassKeepsDuplicate(e: Element, c: string, i: nat, j: nat)
    requires i < j < |Split(e.className)|
    requires Split(e.className)[i] == c && Split(e.className)[j] == c
    ensures HasClass(RemoveClass(e, c), c)
  {
    RemoveClassDeletesFirst(e, c);
    RemoveFirstKeepsLater(Split(e.className), c, i, j);
  }
}
