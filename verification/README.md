# MicroLib-Utils class-string helpers in Dafny

MicroLib-Utils is a small DOM helper library. Its deterministic part is a token algebra on an
element's class attribute, which is one string of class names separated by single spaces,
plus a one-level child search:

- `hasClass(element, name)` splits the class string on `' '` and tests whether `name` is
  one of the pieces.
- `addClass` appends `name` to the pieces when it is absent. It then always writes
  `pieces.join(' ')` back.
- `removeClass` splices out the piece at `indexOf(name)` when present. It then always writes
  the join back.
- `findFromElement(element, s)` runs `forEach` over the direct children. It collects every
  child that has class `s` or whose id is `s`.

The model is functional. An `Element` is an immutable value with a class string, an id and
a sequence of children. Each mutator returns the updated element instead of writing an
attribute in place. `forEach` threads a state through its callback calls, and
`findFromElement` is a method that calls it with a collecting callback.
`src/utils.microlib.js` and `dist/utils.microlib-latest.js` contain the same six functions
line for line, five of them modelled (`makeUID` is left out). They differ in three ways:

- `let` versus `var`;
- `export` on each function in the source module;
- the `forEach` callback in `findFromElement`. It is an arrow function `(index, item) => { … }`
  in the source module and a `function (index, item) { … }` expression in the bundled copy.

None of these changes behaviour. The callback reads neither `this` nor `arguments`, and that
is where the two function forms differ. One model covers both files, so the table below cites
each member against one of the two copies.

Modules:

- `Tokens` (`tokens.dfy`): `Split`, `Join` and `IndexOf`, which model JavaScript's
  `split(' ')`, `join(' ')` and `indexOf`. Also the round trips, and the
  characterisation of a token as a space-delimited piece of the raw string.
- `Nodes`, `Classes` (`classes.dfy`): the element value and the three class helpers.
- `Iteration` (`iteration.dfy`): `forEach`.
- `Search` (`search.dfy`): `findFromElement` and its reference filter.
- `Scenarios` (`scenarios.dfy`): membership, addition, removal and search on a three-token
  class string `a b c`, stated for any space-free class names.

The write-back does not normalise spacing. `split(' ')` keeps empty pieces, so `join(' ')`
rebuilds the string exactly (`Tokens.JoinSplit`). For example, `"a  b"` stays `"a  b"` after
`addClass(el, "a")`.

Two edge cases follow from the code and are proved rather than assumed away:

- The empty name is a class of any string with stray spacing (`Tokens.EmptyTokenIff`).
- A class name that contains a space is written back as several pieces and is never found
  again. So "present after `addClass`" and "`addClass` is idempotent" hold exactly for
  space-free names (`Classes.AddClassIdempotent`).

## Model

| member | source | states |
|---|---|---|
| Tokens.Split | src/utils.microlib.js:44 | `split(' ')` always yields at least one piece: one more than the number of spaces. No piece contains a space. |
| Tokens.IndexOf | src/utils.microlib.js:45 | `indexOf` is -1 exactly when the name is absent. Otherwise it is an index holding the name, and no earlier index holds it, so a splice there removes the earliest occurrence. |
| Tokens.JoinSplit | src/utils.microlib.js:57-61 | Joining the split pieces with `' '` gives back the class string exactly. So the unconditional write-back leaves an unchanged token list byte-identical, irregular spacing included. |
| Tokens.SplitJoin | dist/utils.microlib-latest.js:57-61 | A non-empty list of space-free pieces comes back unchanged from join then split. |
| Tokens.JoinAppend | src/utils.microlib.js:59-61 | Joining after a `push` equals the old join followed by a space and the new piece. |
| Tokens.SplitAppend | dist/utils.microlib-latest.js:59-61 | Appending a space and a space-free name to a class string adds exactly that one piece to its split. |
| Tokens.EmptyTokenIff | src/utils.microlib.js:44 | `split(' ')` yields an empty piece iff the string is empty or has a leading, trailing or doubled space. |
| Tokens.TokenIff | src/utils.microlib.js:44-45 | A name is among the split pieces iff it has no space and occurs bounded by spaces or string ends. This holds in both directions. |
| Classes.HasClass | src/utils.microlib.js:41-46 | `hasClass` holds exactly when the name equals one of the class string's split pieces. |
| Classes.HasClassExactToken | dist/utils.microlib-latest.js:44-45 | `hasClass` is an exact, case-sensitive token test, not a substring test. It holds iff the name has no space and stands as a whole space-delimited token of the raw class string. |
| Classes.HasEmptyClass | dist/utils.microlib-latest.js:44 | `hasClass(el, "")` holds iff the class string is empty or has a leading, trailing or doubled space. |
| Classes.AddClass | src/utils.microlib.js:54-62 | `addClass` keeps id and children. It leaves the class string unchanged when the name is present, and otherwise makes it `old + " " + name` (`" " + name` on an empty string). |
| Classes.AddClassAddsToken | dist/utils.microlib-latest.js:57-61 | For a space-free name, `hasClass` holds afterwards. When the name was absent, the new pieces are the old pieces followed by the name. |
| Classes.AddClassIdempotent | src/utils.microlib.js:58-61 | Applying `addClass` twice equals applying it once iff the name contains no space. |
| Classes.RemoveClass | src/utils.microlib.js:70-78 | `removeClass` keeps id and children. It leaves the class string unchanged when the name is absent, and otherwise writes the join of the pieces with the first occurrence taken out. |
| Classes.SpliceFirst | src/utils.microlib.js:75 | `splice(indexOf(name), 1)` equals taking out the first occurrence of the name. |
| Classes.RemoveFirstDeletesOne | dist/utils.microlib-latest.js:73-77 | Taking out the first occurrence removes exactly one piece, the one at the first index holding the name. The remaining pieces keep their order, and the multiset loses exactly one copy of the name. |
| Classes.RemoveClassDeletesFirst | src/utils.microlib.js:73-77 | With at least two pieces, the new class string splits into the old pieces minus the first occurrence, one fewer. With one piece the class string becomes `""`. |
| Classes.RemoveClassKeepsDuplicate | dist/utils.microlib-latest.js:74-77 | When the name occurs twice, one `removeClass` leaves `hasClass` true. |
| Iteration.ForEach | src/utils.microlib.js:15-21 | The ascending index loop leaves the state that the callback calls, applied in order, produce. |
| Iteration.VisitsEachIndexOnceInOrder | dist/utils.microlib-latest.js:18-20 | The callback runs exactly once for each index `0..n-1`, in ascending order, receiving `(i, array[i])` on call `i`. An empty array gives no calls. |
| Search.MatchingChildren | dist/utils.microlib-latest.js:91-100 | The reference filter keeps the matching children in order. It is never longer than the list of children. |
| Search.MatchingChildrenMembers | dist/utils.microlib-latest.js:95-97 | A child is in the results iff it is a direct child whose class tokens contain `s` or whose id is `s`. Both directions hold. |
| Search.FindFromElement | src/utils.microlib.js:88-101 | `findFromElement` returns exactly the reference filter of the direct children. It contains a child iff the child matches, keeps child order (a subsequence), and is empty when there are no children. |
| Search.CollectFilters | src/utils.microlib.js:92-98 | After the first `n` callback calls, the results array holds exactly the matching children among the first `n`, in order. |
| Search.MatchingChildrenIsSubsequence | dist/utils.microlib-latest.js:94-98 | The results are a subsequence of the children: some children are dropped and order is kept. |
| Search.SearchIgnoresGrandchildren | src/utils.microlib.js:91-95 | Child lists that agree on each child's class string and id give results that agree the same way. Grandchildren never influence the search. |
| Scenarios.MembershipScenarios | src/utils.microlib.js:44-45 | For space-free names, `b` is a class of `a b c`. A name equal to none of `a`, `b`, `c` is not. `x` is not a class of the single token `xy`, although it is a prefix of it. |
| Scenarios.CaseScenario | dist/utils.microlib-latest.js:45 | `"A"` does not match `"a"`: the comparison is case-sensitive. |
| Scenarios.EmptyNameScenarios | dist/utils.microlib-latest.js:44-45 | `""` is a class of `a  b` (doubled space) and of `""`. It is not a class of `a b` with non-empty tokens. |
| Scenarios.AddClassScenarios | dist/utils.microlib-latest.js:54-62 | `addClass(d)` on `a b` gives `a b d`, and a second call changes nothing. `addClass(x)` on `""` gives `" " + x` for any non-empty `x`. |
| Scenarios.RemoveClassScenarios | dist/utils.microlib-latest.js:70-78 | `removeClass(b)` on `a b c` gives `a c`, also when `b` equals `a` and only the first copy goes. A name equal to none of the three leaves `a b c` unchanged. |
| Scenarios.SearchScenario | dist/utils.microlib-latest.js:88-101 | Of three children, only the second has class `s`. Only it is found, although the first child has a grandchild with class `s`. |

## Left out

- `makeUID`: its value comes from `Math.random`, a floating-point multiply and an int32 `<< 0` truncation, so it is nondeterministic. Nothing about it is modelled.
- Attribute writes as in-place mutation: each mutator returns a new element. Whether a write happens is not observable in a value model; the content written is modelled exactly.
- DOM semantics: live `HTMLCollection` children, element identity, and faults on handles that lack `className`, `id` or `children`. Every modelled element has all three attributes.
- Iteration.ForEach: the callback may only thread a state value. Arbitrary side effects, such as mutating the array being iterated (the JavaScript loop re-reads `array.length` on every pass), are not modelled.
- Packaging differences between the source module and the bundled copy: `let`/`var`, `export`, and an arrow function versus a `function` expression for the `forEach` callback at line 94. None has a behavioural effect, because that callback uses neither `this` nor `arguments`.
- Strings: class strings and names are sequences of Unicode characters, whereas JavaScript strings are sequences of UTF-16 code units. So a lone surrogate cannot be represented. Splitting on U+0020 and comparing with `===` agree between the two on every well-formed string.
