# Basket filter of ntt, in Dafny

`ntt list` chooses test objects (test cases, modules,
…) through a *basket*: a filter made of four lists of regular expressions
and a list of sub-baskets. This project models that filter from `filter.go`:

- the `Basket` value and `NewBasket` once its arguments are parsed
  (`Filter.Basket`, `Filter.NewBasket`, `Filter.DefaultBasket`).
  `Filter.NewBasket` (filter.go:124-153) only copies the four parsed lists
  into a basket without sub-baskets, so it has no contract of its own. What
  the baskets it builds select is stated by
  `FilterProperties.EmptyBasketSelectsAll`, `FilterProperties.TagBasket`
  and `FilterProperties.LoadNamesInOrder`;
- the matching code `Match`, `match`, `matchAll` and `matchAllTags` as
  methods with the same loops and early exits (`Filter.Match`,
  `Filter.MatchOwn`, `Filter.MatchAll`, `Filter.MatchAllTags`). Each is
  proved equal to a declarative predicate (`Accepts`, `OwnAccepts`,
  `AllMatch`, `AllTagsMatch`);
- `LoadFromEnv`, which appends one sub-basket per colon-separated name
  in an environment variable (`Filter.BasketVar.LoadFromEnv`). It is
  specified by the function `Filter.LoadFromEnvSpec`;
- the parts of Go's `strings` and `unicode` packages the code relies on
  (`TrimSpace`, `Fields`, `Split`, `SplitN(…, 2)`, `unicode.IsSpace`), in
  module `GoStrings`;
- `regexp.Match` with its error dropped, as an arbitrary engine, in module
  `Regex`.

Module `FilterProperties` proves what the filter guarantees:
- "all baskets are ORed, all explicit filter options are ANDed", stated as
  accepting root-to-leaf paths through the basket tree;
- how name and tag exclusion behave;
- how a tag pattern is cut at its first colon;
- that the default basket selects everything;
- what LoadFromEnv appends, and in which order;
- the two examples given in the documentation of `Basket`.

The comment at `filter.go:85-90` disagrees with the code, and the model
follows the code. The comment describes `NTT_LIST_BASKETS=stable:ipv6 ntt
list -R @flaky`, where `stable` is `--tags-exclude @wip|@flaky`. It says
this lists tests with a `@flaky` tag and either a `@wip` or an `@ipv6` tag.
In the code, `stable` rejects every object that the root's `-R @flaky`
accepts. So only `@flaky` objects that also carry an `@ipv6` tag are listed
(`FilterProperties.StableIpv6Example`).

## Model

| member | source | states |
|---|---|---|
| Regex.Matches | filter.go:224 | a pattern that does not compile never matches: the error of `regexp.Match` is dropped and the result is false |
| Filter.MatchAll | filter.go:222-229 | true exactly when every pattern of the list matches the string, so an empty list matches everything |
| Filter.TagPattern | filter.go:235 | a tag pattern is cut into one part, or two at most: the key pattern and an optional value pattern |
| Filter.TrimEach | filter.go:236-238 | every part of the split pattern is replaced in place by its trimmed form, and nothing else changes |
| Filter.SplitTagPattern | filter.go:235-238 | the new array holds the pattern cut at its first ':' with each part trimmed |
| Filter.MatchAllTags | filter.go:232-252 | true exactly when each pattern has a witness tag: its key matches the key pattern and, when the pattern has a value part, its value matches the value pattern |
| Filter.MatchOwn | filter.go:197-219 | true exactly when all name patterns match, the exclude list is empty or not all of it matches, the tag patterns (if any) are met by a non-empty tag list, and the tag-exclude list is empty or not all met |
| Filter.Match | filter.go:182-194 | true exactly when the own filters accept and either there are no sub-baskets or some sub-basket accepts, recursively |
| Filter.LoadStopsAtError | filter.go:172-175 | after the first name whose flags fail to parse, the remaining names change nothing |
| Filter.BasketVar.constructor | filter.go:102-121 | a basket variable holds the given basket value |
| Filter.BasketVar.LoadFromEnv | filter.go:156-179 | the sub-baskets loaded from the variable are appended after the existing ones; the error is that of the first name that fails to parse; no other field changes |
| FilterProperties.MatchCombinesOwnAndSubBaskets | filter.go:182-194 | without sub-baskets the own filters decide; with sub-baskets the own filters AND the OR of the sub-baskets decide; failing own filters are never rescued |
| FilterProperties.AcceptsHasPath | filter.go:188-193 | every selected object has an accepting path from the basket down to a basket without sub-baskets |
| FilterProperties.PathGivesAccepts | filter.go:188-193 | an accepting path from the basket down to a basket without sub-baskets means the object is selected |
| FilterProperties.AcceptsIffAcceptingPath | filter.go:182-194 | an object is selected if and only if some chain of nested baskets accepts it at every level (baskets ORed, filters ANDed) |
| FilterProperties.FirstSubBasketRestricts | filter.go:184-192 | giving a basket without sub-baskets one sub-basket selects exactly the objects that both select |
| FilterProperties.MoreSubBasketsWiden | filter.go:188-192 | appending sub-baskets to a basket that already has some never drops a selected object |
| FilterProperties.AllMatchIsConjunction | filter.go:222-229 | the name patterns of two lists together match exactly when each list matches; no patterns reject nothing |
| FilterProperties.NameExcludeNeedsAllPatterns | filter.go:201-203 | exclude patterns reject a name only when there is at least one and all match; one that does not match makes the whole list irrelevant |
| FilterProperties.NoTagsFailTagPatterns | filter.go:205-208 | an object without tags is rejected when the basket has tag patterns |
| FilterProperties.NoTagsNeverExcluded | filter.go:214-216 | tag-exclude patterns never reject an object without tags |
| FilterProperties.EmptyTagsTestRedundant | filter.go:205-212 | the explicit test for an empty tag list changes nothing: the tag patterns alone already reject an object without tags |
| FilterProperties.PatternWithoutColonMatchesKey | filter.go:235-242 | a tag pattern without ':' is trimmed and constrains only the key of a tag |
| FilterProperties.PatternWithColonMatchesKeyAndValue | filter.go:235-247 | a tag pattern is cut at its first ':' only, so the value pattern may hold colons; a witness tag must match both trimmed parts |
| FilterProperties.PatternPartsAreTrimmed | filter.go:236-238 | neither the key nor the value pattern starts or ends with white space |
| FilterProperties.EmptyBasketSelectsAll | filter.go:197-219 | a basket with no patterns and no sub-baskets selects every object |
| FilterProperties.DefaultBasketSelectsAll | filter.go:14-15 | DefaultBasket selects every object |
| FilterProperties.NonEmptySpec | filter.go:163-166 | the names that get a basket are exactly the non-empty names of the variable |
| Filter.BasketArgs | filter.go:167-170 | a basket whose definition is unset or only white space gets the arguments `-R @<name>`; otherwise its arguments are the fields of its definition, of which there is at least one and none is empty or holds white space |
| FilterProperties.DefinedBasketArgs | filter.go:167 | a basket defined by space-separated words, such as `-X` followed by a pattern, gets exactly those words as arguments, in order |
| FilterProperties.TabSeparatedBasketArgs | filter.go:167 | the definition `-X<tab>@wip` gives the arguments `-X` and `@wip`: words may be separated by any white space |
| FilterProperties.EmptyVariableLoadsNothing | filter.go:157-160 | an empty or unset variable loads nothing and reports no error |
| FilterProperties.LoadNamesInOrder | filter.go:162-178 | one basket per non-empty name, in order, each built from its own parsed arguments; loading stops at the first name that fails to parse, reports its error and keeps the baskets appended before it |
| FilterProperties.LoadTwoNames | filter.go:162-177 | two non-empty names whose arguments parse load two baskets, in order |
| FilterProperties.StableIpv6Example | filter.go:85-90 | with `stable` excluding tags that match either `@wip` or `@flaky`, and `ipv6` requiring `@ipv6`, under a root requiring `@flaky`: exactly the `@flaky` objects with an `@ipv6` tag are selected |
| FilterProperties.TagBasket | filter.go:205-216 | a basket whose one tag pattern has no ':' and no surrounding white space selects exactly the objects with a tag key matching it; with that pattern as its one tag exclusion it selects exactly the others |
| FilterProperties.TwoSubBaskets | filter.go:184-192 | a basket given two sub-baskets selects exactly what its own filters accept and either sub-basket accepts |
| FilterProperties.LiteralPattern | filter.go:235-238 | a pattern without ':' or surrounding white space is used unchanged as the key pattern |
| FilterProperties.BasketArgsUndefined | filter.go:167-170 | an unset basket variable gives the arguments `-R @<name>` |
| FilterProperties.UndefinedBasketsLoad | filter.go:92-97 | `flaky:wip` with neither basket defined loads `-R @flaky` then `-R @wip` |
| FilterProperties.UndefinedBasketsSelect | filter.go:96-100 | those two baskets select the same objects as one tag pattern matching either `@wip` or `@flaky` |
| GoStrings.TrimLeftSpec | filter.go:237 | trimming on the left drops exactly a prefix of white space |
| GoStrings.TrimRightSpec | filter.go:237 | trimming on the right drops exactly a suffix of white space |
| GoStrings.TrimSpaceSpec | filter.go:237 | `strings.TrimSpace` leaves no white space at either end, is empty exactly for all-space input, and cuts only white space |
| GoStrings.TrimSpaceUnpadded | filter.go:237 | a string without white space at its ends is its own trimming |
| GoStrings.TrimSpaceIdempotent | filter.go:237 | trimming twice is trimming once |
| GoStrings.WordSpec | filter.go:167 | a field is the longest space-free prefix |
| GoStrings.FieldsSpec | filter.go:167-168 | `strings.Fields` gives non-empty, space-free fields, and none exactly when the input is all white space; which fields come back is stated by the lemmas below |
| GoStrings.FieldsAfterWord | filter.go:167 | a word followed by a run of white space of any length and kind (spaces, tabs, …) is the first field, and the fields of what follows the run come after it |
| GoStrings.FieldsOfWord | filter.go:167 | a non-empty, space-free word on its own is the one field; with `FieldsSkipsSpace` and `FieldsAfterWord` this fixes the fields of every string |
| GoStrings.FieldsJoin | filter.go:167 | the fields of non-empty, space-free words joined by single spaces are those words, in order |
| GoStrings.FieldsSkipsSpace | filter.go:167 | leading white space does not change the fields |
| GoStrings.FieldsIgnoresTrailingSpace | filter.go:167 | trailing white space does not change the fields |
| GoStrings.WordOfPrefix | filter.go:167 | a space-free word followed by white space or by nothing is read back whole as the first field |
| GoStrings.TrimLeftSkipsSpace | filter.go:167 | leading white space is dropped before the first field is read |
| GoStrings.IndexOf | filter.go:162 | the position found holds the separator |
| GoStrings.IndexOfIsFirst | filter.go:162 | no separator occurs before the position found |
| GoStrings.Split | filter.go:162 | `strings.Split` gives at least one part |
| GoStrings.SplitSpec | filter.go:162 | no part of `strings.Split` holds the separator, and joining the parts gives the input back |
| GoStrings.SplitJoin | filter.go:162 | splitting a join of separator-free parts gives the parts back |
| GoStrings.SplitFirst | filter.go:235 | `strings.SplitN(s, sep, 2)` gives one or two parts |
| GoStrings.SplitFirstSpec | filter.go:235 | one part exactly when the separator is absent; the first part holds no separator; joining gives the input back |
| GoStrings.SplitFirstAt | filter.go:235 | cutting `key:rest` with a colon-free key gives `key` and `rest`, whatever `rest` holds |

## Left out

- The regular-expression engine: `Regex.Engine` is any pair of functions (which patterns compile, and whether a compiled pattern is found in a string). RE2 syntax and semantics are not modelled, so every property holds for every engine. The two documentation examples state the one fact about alternation they need as a precondition.
- `FilterFlags` (filter.go:57-64) and the flag parsing inside `NewBasket` (filter.go:127-152) are not modelled. They are `github.com/spf13/pflag`, which is not part of this model, and appear here as the parameter `FlagParser`. `Filter.NewBasket` only builds a basket from already-parsed lists.
- `DefaultBasket` discards the error of `NewBasket("default")`. Parsing no arguments cannot fail, so the model takes the basket with four empty lists.
- `env.Getenv` (internal/env is not part of this model) is a lookup in a given map that returns "" for an unset variable.
- Go strings are byte strings. The model uses sequences of Unicode characters, so invalid UTF-8 is not modelled; `unicode.IsSpace` is modelled with its full set of white-space characters.
- Filter.MatchAllTags: requires every tag to have a key and a value. For each pattern, Go scans the tags until one is a witness. It reads `tag[0]` of every tag it reaches, so an empty tag panics at filter.go:240. It reads `tag[1]` only once a tag's key has matched a pattern with a value part, so a one-element tag panics at filter.go:244 only then. The model covers neither panic.
- Filter.MatchOwn: the same requires, because it calls `Filter.MatchAllTags`. When both tag lists of the basket are empty, Go reads no tag and no tag can cause a panic. As soon as the basket has a tag-include or tag-exclude pattern, the panics described for `Filter.MatchAllTags` apply to the tags the scan reaches. The model does not cover tags with fewer than two elements in either case.
- Filter.Match: the same requires as `Filter.MatchOwn`, for the same reason, and so do the predicates `Filter.OwnAccepts` and `Filter.Accepts` and the lemmas about them.
- The lister that extracts object names and tags, and the order in which objects are listed, are outside the filter and not modelled.
