/** Membership, addition, removal and search on a class string of three
    tokens `a b c`, stated for any space-free class names `a`, `b`, `c`. */
module Scenarios {
  import opened Tokens
  import opened Nodes
  import opened Classes
  import opened Search

  function Leaf(className: string): (e: Element)
  {
    Element(className, "", [])
  }

  /** `a b` and `a b c`, written with single spaces. */
  function Two(a: string, b: string): (s: string)
  {
    a + [Space] + b
  }

  function Three(a: string, b: string, c: string): (s: string)
  {
    a + [Space] + b + [Space] + c
  }

  lemma SplitTwo(a: string, b: string)
    requires Space !in a && Space !in b
    ensures Split(Two(a, b)) == [a, b]
  {
    SplitCons(a, b);
    SplitSpaceFreeString(b);
  }

  lemma SplitThree(a: string, b: string, c: string)
    requires Space !in a && Space !in b && Space !in c
    ensures Split(Three(a, b, c)) == [a, b, c]
  {
    assert Three(a, b, c) == a + [Space] + Two(b, c);
    SplitCons(a, Two(b, c));
    SplitTwo(b, c);
  }

  /** `b` is a class of `a b c` and a name that is none of the three is not;
      `x` is not a class of `xy` although it is a prefix of it. */
  lemma MembershipScenarios(a: string, b: string, c: string, x: string, y: string)
    requires Space !in a && Space !in b && Space !in c
    requires x != a && x != b && x != c
    requires Space !in x + y && |y| > 0
    ensures HasClass(Leaf(Three(a, b, c)), b)
    ensures !HasClass(Leaf(Three(a, b, c)), x)
    ensures !HasClass(Leaf(x + y), x)
  {
    SplitThree(a, b, c);
    SplitSpaceFreeString(x + y);
    assert |x + y| > |x|;
  }

  /** Class names are compared case-sensitively. */
  lemma CaseScenario()
    ensures !HasClass(Leaf("A"), "a")
  {
    SplitSpaceFreeString("A");
  }

  /** The empty name matches a doubled space and the empty class string, but
      not a class string of non-empty tokens separated by single spaces. */
  lemma EmptyNameScenarios(a: string, b: string)
    requires Space !in a && Space !in b && |a| > 0 && |b| > 0
    ensures HasClass(Leaf(a + [Space, Space] + b), "")
    ensures HasClass(Leaf(""), "")
    ensures !HasClass(Leaf(Two(a, b)), "")
  {
    var s := a + [Space, Space] + b;
    HasEmptyClass(Leaf(s));
    assert s[|a|] == Space && s[|a| + 1] == Space;
    HasEmptyClass(Leaf(""));
    SplitTwo(a, b);
  }

  /** `addClass(d)` on `a b` gives `a b d`, and a second call keeps it; on an
      empty class string `addClass(x)` gives `" " + x`, with a leading space,
      for any non-empty `x`. */
  lemma AddClassScenarios(a: string, b: string, d: string, x: string)
    requires Space !in a && Space !in b && Space !in d
    requires d != a && d != b && x != ""
    ensures AddClass(Leaf(Two(a, b)), d).className == Three(a, b, d)
    ensures AddClass(AddClass(Leaf(Two(a, b)), d), d) == AddClass(Leaf(Two(a, b)), d)
    ensures AddClass(Leaf(""), x).className == [Space] + x
  {
    SplitTwo(a, b);
    AddClassIdempotent(Leaf(Two(a, b)), d);
    assert Split("") == [""];
  }

  /** `removeClass(b)` on `a b c` gives `a c`; when `b` equals `a` it is the
      first copy that goes, which leaves the same string. A name that is none
      of the three leaves the class string as it was. */
  lemma RemoveClassScenarios(a: string, b: string, c: string, z: string)
    requires Space !in a && Space !in b && Space !in c
    requires z != a && z != b && z != c
    ensures RemoveClass(Leaf(Three(a, b, c)), b).className == Two(a, c)
    ensures RemoveClass(Leaf(Three(a, b, c)), z).className == Three(a, b, c)
  {
    SplitThree(a, b, c);
    var ts := [a, b, c];
    assert RemoveFirst(ts, b) == [a, c] by {
      assert ts[1..] == [b, c];
    }
    assert [a, c][1..] == [c];
    assert Join([a, c]) == Two(a, c);
  }

  /** Of three children, only the second has class `s`; the first has a
      grandchild with class `s`. Only the second child is found. */
  lemma SearchScenario(first: Element, second: Element, third: Element, s: string)
    requires Space !in s
    requires Space !in first.className && first.className != s && first.id != s
    requires first.children == [Leaf(s)]
    requires second.className == s
    requires Space !in third.className && third.className != s && third.id != s
    ensures MatchingChildren([first, second, third], s) == [second]
  {
    SplitSpaceFreeString(s);
    SplitSpaceFreeString(first.className);
    SplitSpaceFreeString(third.className);
    assert !Matches(first, s) && Matches(second, s) && !Matches(third, s);
    MatchingChildrenAppend([], first, s);
    MatchingChildrenAppend([first], second, s);
    MatchingChildrenAppend([first, second], third, s);
    assert [] + [first] == [first];
    assert [first] + [second] == [first, second];
    assert [first, second] + [third] == [first, second, third];
  }
}
