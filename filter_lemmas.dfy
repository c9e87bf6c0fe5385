/** What the basket filter guarantees, proved about the specification in
    module Filter: how sub-baskets combine, how name and tag exclusion
    work, how a tag pattern is split, and what LoadFromEnv appends. */
module FilterProperties {
  import opened GoStrings
  import opened Regex
  import opened Filter

  // Sub-baskets.

  /** Without sub-baskets a basket's own filters decide; with them, the own
      filters must hold and at least one sub-basket must match, so failing
      own filters cannot be rescued by any sub-basket. */
  lemma MatchCombinesOwnAndSubBaskets(e: Engine, b: Basket, name: string, tags: seq<Tag>)
    requires WellFormedTags(tags)
    ensures |b.baskets| == 0 ==> (Accepts(e, b, name, tags) <==> OwnAccepts(e, b, name, tags))
    ensures |b.baskets| > 0 ==>
      (Accepts(e, b, name, tags) <==>
        OwnAccepts(e, b, name, tags) &&
        exists k | 0 <= k < |b.baskets| :: Accepts(e, b.baskets[k], name, tags))
    ensures !OwnAccepts(e, b, name, tags) ==> !Accepts(e, b, name, tags)
  {
  }

  /** A path from `b` down its tree of sub-baskets, one child index per
      level, that ends at a basket without sub-baskets and passes only
      through baskets whose own filters accept. */
  ghost predicate AcceptingPath(e: Engine, b: Basket, path: seq<nat>, name: string, tags: seq<Tag>)
    requires WellFormedTags(tags)
    decreases path
  {
    && OwnAccepts(e, b, name, tags)
    && if path == [] then |b.baskets| == 0
       else path[0] < |b.baskets| && AcceptingPath(e, b.baskets[path[0]], path[1..], name, tags)
  }

  lemma {:induction false} AcceptsHasPath(e: Engine, b: Basket, name: string, tags: seq<Tag>)
    requires WellFormedTags(tags)
    requires Accepts(e, b, name, tags)
    ensures exists path :: AcceptingPath(e, b, path, name, tags)
    decreases b
  {
    if |b.baskets| == 0 {
      assert AcceptingPath(e, b, [], name, tags);
    } else {
      var k :| 0 <= k < |b.baskets| && Accepts(e, b.baskets[k], name, tags);
      AcceptsHasPath(e, b.baskets[k], name, tags);
      var p :| AcceptingPath(e, b.baskets[k], p, name, tags);
      assert ([k] + p)[1..] == p;
      assert AcceptingPath(e, b, [k] + p, name, tags);
    }
  }

  lemma {:induction false} PathGivesAccepts(e: Engine, b: Basket, path: seq<nat>, name: string, tags: seq<Tag>)
    requires WellFormedTags(tags)
    requires AcceptingPath(e, b, path, name, tags)
    ensures Accepts(e, b, name, tags)
    decreases path
  {
    if path != [] {
      PathGivesAccepts(e, b.baskets[path[0]], path[1..], name, tags);
    }
  }

  /** "All baskets are ORed, all explicit filter options are ANDed": an object
      is selected exactly when some chain of nested baskets, from the root
      to a basket without sub-baskets, accepts it at every level. */
  lemma AcceptsIffAcceptingPath(e: Engine, b: Basket, name: string, tags: seq<Tag>)
    requires WellFormedTags(tags)
    ensures Accepts(e, b, name, tags) <==> exists path :: AcceptingPath(e, b, path, name, tags)
  {
    if Accepts(e, b, name, tags) {
      AcceptsHasPath(e, b, name, tags);
    }
    if exists path :: AcceptingPath(e, b, path, name, tags) {
      var path :| AcceptingPath(e, b, path, name, tags);
      PathGivesAccepts(e, b, path, name, tags);
    }
  }

  /** Giving a basket without sub-baskets its first sub-basket ANDs that
      sub-basket's filters with its own. */
  lemma FirstSubBasketRestricts(e: Engine, b: Basket, sb: Basket, name: string, tags: seq<Tag>)
    requires WellFormedTags(tags)
    requires |b.baskets| == 0
    ensures Accepts(e, b.(baskets := [sb]), name, tags) <==>
            Accepts(e, b, name, tags) && Accepts(e, sb, name, tags)
  {
    var b' := b.(baskets := [sb]);
    assert b'.baskets[0] == sb;
    assert OwnAccepts(e, b', name, tags) == OwnAccepts(e, b, name, tags);
  }

  /** Appending sub-baskets to a basket that already has some (as
      LoadFromEnv does) never drops an object the basket selected. */
  lemma MoreSubBasketsWiden(e: Engine, b: Basket, more: seq<Basket>, name: string, tags: seq<Tag>)
    requires WellFormedTags(tags)
    requires |b.baskets| > 0 && Accepts(e, b, name, tags)
    ensures Accepts(e, b.(baskets := b.baskets + more), name, tags)
  {
    var b' := b.(baskets := b.baskets + more);
    var k :| 0 <= k < |b.baskets| && Accepts(e, b.baskets[k], name, tags);
    assert b'.baskets[k] == b.baskets[k];
    assert OwnAccepts(e, b', name, tags) == OwnAccepts(e, b, name, tags);
  }

  // Name rules.

  /** Several --regex patterns are ANDed; with none, no name is rejected. */
  lemma AllMatchIsConjunction(e: Engine, r1: seq<string>, r2: seq<string>, s: string)
    ensures AllMatch(e, r1 + r2, s) <==> AllMatch(e, r1, s) && AllMatch(e, r2, s)
    ensures AllMatch(e, [], s)
  {
    if AllMatch(e, r1, s) && AllMatch(e, r2, s) {
      forall i | 0 <= i < |r1 + r2| ensures Matches(e, (r1 + r2)[i], s) {
        if i >= |r1| { assert (r1 + r2)[i] == r2[i - |r1|]; }
      }
    }
    if AllMatch(e, r1 + r2, s) {
      forall i | 0 <= i < |r1| ensures Matches(e, r1[i], s) {
        assert r1[i] == (r1 + r2)[i];
      }
      forall i | 0 <= i < |r2| ensures Matches(e, r2[i], s) {
        assert r2[i] == (r1 + r2)[|r1| + i];
      }
    }
  }

  /** The exclude patterns reject a name only when there is at least one and
      all of them match: one non-matching exclude pattern makes the whole
      exclude list irrelevant. */
  lemma NameExcludeNeedsAllPatterns(e: Engine, b: Basket, name: string, tags: seq<Tag>)
    requires WellFormedTags(tags)
    ensures |b.nameExclude| > 0 && AllMatch(e, b.nameExclude, name) ==> !OwnAccepts(e, b, name, tags)
    ensures (exists k | 0 <= k < |b.nameExclude| :: !Matches(e, b.nameExclude[k], name)) ==>
      (OwnAccepts(e, b, name, tags) <==> OwnAccepts(e, b.(nameExclude := []), name, tags))
  {
  }

  // Tag rules.

  /** With tag patterns to meet, an object without tags is rejected; a
      pattern list with no patterns is met by any tags. */
  lemma NoTagsFailTagPatterns(e: Engine, b: Basket, name: string)
    requires |b.tagsRegex| > 0
    ensures !OwnAccepts(e, b, name, []) && !Accepts(e, b, name, [])
  {
  }

  /** Tag-exclude patterns never reject an object without tags: a non-empty
      list of patterns has no witness among no tags. */
  lemma NoTagsNeverExcluded(e: Engine, b: Basket, name: string)
    ensures OwnAccepts(e, b, name, []) <==> OwnAccepts(e, b.(tagsExclude := []), name, [])
  {
    if |b.tagsExclude| > 0 {
      assert !HasWitness(e, TagPattern(b.tagsExclude[0]), []);
    }
  }

  /** The explicit `len(tags) == 0` test in match adds nothing: the tag
      patterns alone already reject an object without tags. */
  lemma EmptyTagsTestRedundant(e: Engine, b: Basket, name: string, tags: seq<Tag>)
    requires WellFormedTags(tags)
    ensures OwnAccepts(e, b, name, tags) <==>
      && AllMatch(e, b.nameRegex, name)
      && !(|b.nameExclude| > 0 && AllMatch(e, b.nameExclude, name))
      && (|b.tagsRegex| > 0 ==> AllTagsMatch(e, b.tagsRegex, tags))
      && !(|b.tagsExclude| > 0 && AllTagsMatch(e, b.tagsExclude, tags))
  {
    if |b.tagsRegex| > 0 && tags == [] {
      assert !HasWitness(e, TagPattern(b.tagsRegex[0]), tags);
    }
  }

  /** A tag pattern without ':' is trimmed and constrains only the key: a tag
      is a witness exactly when its key matches. */
  lemma PatternWithoutColonMatchesKey(e: Engine, r: string, tag: Tag)
    requires ':' !in r && |tag| >= 2
    ensures TagPattern(r) == [TrimSpace(r)]
    ensures TagSatisfies(e, TagPattern(r), tag) <==> Matches(e, TrimSpace(r), tag[0])
  {
  }

  /** A tag pattern is cut at its first ':' only: the key pattern is the
      trimmed text before it and the value pattern the trimmed rest, which
      may hold further colons; a witness must match both. */
  lemma PatternWithColonMatchesKeyAndValue(e: Engine, key: string, value: string, tag: Tag)
    requires ':' !in key && |tag| >= 2
    ensures TagPattern(key + ":" + value) == [TrimSpace(key), TrimSpace(value)]
    ensures TagSatisfies(e, TagPattern(key + ":" + value), tag) <==>
      Matches(e, TrimSpace(key), tag[0]) && Matches(e, TrimSpace(value), tag[1])
  {
    SplitFirstAt(key, ':', value);
  }

  /** The key and value patterns carry no surrounding white space. */
  lemma PatternPartsAreTrimmed(r: string)
    ensures forall m | 0 <= m < |TagPattern(r)| ::
      TagPattern(r)[m] == [] || (!IsSpace(TagPattern(r)[m][0]) && !IsSpace(TagPattern(r)[m][|TagPattern(r)[m]| - 1]))
  {
    var parts := SplitFirst(r, ':');
    forall m | 0 <= m < |parts| ensures
      TagPattern(r)[m] == [] || (!IsSpace(TagPattern(r)[m][0]) && !IsSpace(TagPattern(r)[m][|TagPattern(r)[m]| - 1]))
    {
      TrimSpaceSpec(parts[m]);
    }
  }

  /** A basket with no filters and no sub-baskets, DefaultBasket among them,
      selects every object. */
  lemma EmptyBasketSelectsAll(e: Engine, b: Basket, name: string, tags: seq<Tag>)
    requires WellFormedTags(tags)
    requires b.nameRegex == b.nameExclude == b.tagsRegex == b.tagsExclude == [] && b.baskets == []
    ensures Accepts(e, b, name, tags)
  {
  }

  lemma DefaultBasketSelectsAll(e: Engine, name: string, tags: seq<Tag>)
    requires WellFormedTags(tags)
    ensures Accepts(e, DefaultBasket, name, tags)
  {
    EmptyBasketSelectsAll(e, DefaultBasket, name, tags);
  }

  // Loading from the environment.

  /** The non-empty names among `names`, in order. */
  function NonEmpty(names: seq<string>): (ns: seq<string>)
    decreases |names|
  {
    if names == [] then []
    else NonEmpty(names[..|names| - 1]) +
         (if names[|names| - 1] == "" then [] else [names[|names| - 1]])
  }

  /** NonEmpty keeps exactly the non-empty names. */
  lemma {:induction false} NonEmptySpec(names: seq<string>)
    ensures forall k | 0 <= k < |NonEmpty(names)| :: NonEmpty(names)[k] != ""
    ensures forall x :: x in NonEmpty(names) <==> x in names && x != ""
    decreases |names|
  {
    if names != [] {
      var init := names[..|names| - 1];
      NonEmptySpec(init);
      assert names == init + [names[|names| - 1]];
    }
  }

  /** A basket defined by space-separated words, such as
      `NTT_LIST_BASKETS_stable="-X @wip|@flaky"`, gets exactly those words as
      its arguments, in order. */
  lemma DefinedBasketArgs(env: map<string, string>, key: string, name: string, ws: seq<string>)
    requires ws != []
    requires forall k | 0 <= k < |ws| :: ws[k] != [] && NoSpace(ws[k])
    requires Getenv(env, key + "_" + name) == Join(ws, ' ')
    ensures BasketArgs(env, key, name) == ws
  {
    FieldsJoin(ws);
    FieldsSpec(Join(ws, ' '));
  }

  /** The words of a definition may be separated by a tab, or by several
      white-space characters, as well as by one space. */
  lemma TabSeparatedBasketArgs(env: map<string, string>, key: string, name: string)
    requires Getenv(env, key + "_" + name) == "-X\t@wip"
    ensures BasketArgs(env, key, name) == ["-X", "@wip"]
  {
    var d := Getenv(env, key + "_" + name);
    assert d == "-X" + "\t" + "@wip";
    assert NoSpace("-X") && NoSpace("@wip") && AllSpace("\t");
    FieldsAfterWord("-X", "\t", "@wip");
    FieldsOfWord("@wip");
  }

  /** An empty or unset variable loads nothing and reports no error. */
  lemma EmptyVariableLoadsNothing(parse: FlagParser, env: map<string, string>, key: string)
    requires key !in env || env[key] == ""
    ensures LoadFromEnvSpec(parse, env, key) == Loaded([], None)
  {
  }

  /** The flags the parser gives for the basket `name`, when it succeeds. */
  function ParsedBasket(parse: FlagParser, env: map<string, string>, key: string, name: string): Basket
    requires parse(name, BasketArgs(env, key, name)).Ok?
  {
    NewBasket(name, parse(name, BasketArgs(env, key, name)).value)
  }

  /** The loading loop appends one basket per non-empty name, in the order
      of the names, each built from its own arguments, and stops at the
      first name whose arguments do not parse, keeping what was appended
      before it. */
  lemma {:induction false} LoadNamesInOrder(parse: FlagParser, env: map<string, string>, key: string,
                                            names: seq<string>)
    ensures var r := LoadNames(parse, env, key, names);
      var ns := NonEmpty(names);
      && |r.added| <= |ns|
      && (forall k | 0 <= k < |r.added| ::
            parse(ns[k], BasketArgs(env, key, ns[k])).Ok? &&
            r.added[k] == ParsedBasket(parse, env, key, ns[k]))
      && (r.err == None <==> |r.added| == |ns|)
      && (r.err.Some? ==> parse(ns[|r.added|], BasketArgs(env, key, ns[|r.added|])) == Err(r.err.value))
    decreases |names|
  {
    if names != [] {
      var init := names[..|names| - 1];
      var name := names[|names| - 1];
      LoadNamesInOrder(parse, env, key, init);
      var prev := LoadNames(parse, env, key, init);
      var r := LoadNames(parse, env, key, names);
      var ns := NonEmpty(names);
      assert ns[..|NonEmpty(init)|] == NonEmpty(init);
      if prev.err.None? && name != "" {
        assert ns[|NonEmpty(init)|] == name;
        if parse(name, BasketArgs(env, key, name)).Ok? {
          forall k | 0 <= k < |r.added|
            ensures parse(ns[k], BasketArgs(env, key, ns[k])).Ok? &&
                    r.added[k] == ParsedBasket(parse, env, key, ns[k])
          {
            if k < |prev.added| {
              assert r.added[k] == prev.added[k];
              assert ns[k] == NonEmpty(init)[k];
            }
          }
        }
      } else if prev.err.Some? {
        assert ns[|prev.added|] == NonEmpty(init)[|prev.added|];
      }
    }
  }

  // The examples in the documentation of Basket.

  /** Root basket `-R @flaky` with the baskets `stable` (`--tags-exclude
      @wip|@flaky`) and `ipv6` (`--tags-regex @ipv6`). For any engine in
      which `@wip|@flaky` is found wherever `@flaky` is, `stable` rejects
      every object the root accepts, so only the objects that also have an
      `@ipv6` tag are selected. */
  lemma StableIpv6Example(e: Engine, name: string, tags: seq<Tag>)
    requires WellFormedTags(tags)
    requires forall s :: Matches(e, "@flaky", s) ==> Matches(e, "@wip|@flaky", s)
    ensures var stable := NewBasket("stable", Flags([], [], [], ["@wip|@flaky"]));
      var ipv6 := NewBasket("ipv6", Flags([], [], ["@ipv6"], []));
      var root := NewBasket("default", Flags([], [], ["@flaky"], [])).(baskets := [stable, ipv6]);
      Accepts(e, root, name, tags) <==>
        (exists j | 0 <= j < |tags| :: Matches(e, "@flaky", tags[j][0])) &&
        (exists j | 0 <= j < |tags| :: Matches(e, "@ipv6", tags[j][0]))
  {
    var stable := NewBasket("stable", Flags([], [], [], ["@wip|@flaky"]));
    var ipv6 := NewBasket("ipv6", Flags([], [], ["@ipv6"], []));
    var own := NewBasket("default", Flags([], [], ["@flaky"], []));
    PlainExamplePatterns();
    TagBasket(e, "default", "@flaky", name, tags);
    TagBasket(e, "stable", "@wip|@flaky", name, tags);
    TagBasket(e, "ipv6", "@ipv6", name, tags);
    TwoSubBaskets(e, own, stable, ipv6, name, tags);
    if KeyFound(e, "@flaky", tags) {
      var j :| 0 <= j < |tags| && Matches(e, "@flaky", tags[j][0]);
      assert Matches(e, "@wip|@flaky", tags[j][0]);
    }
  }

  /** Some tag's key matches `r`. */
  ghost predicate KeyFound(e: Engine, r: string, tags: seq<Tag>)
    requires WellFormedTags(tags)
  {
    exists j | 0 <= j < |tags| :: Matches(e, r, tags[j][0])
  }

  /** A basket with the one tag pattern `r` (no colon, no surrounding white
      space) selects exactly the objects with a key matching `r`; one with the
      one tag-exclude pattern `r` selects exactly the others. */
  lemma TagBasket(e: Engine, n: string, r: string, name: string, tags: seq<Tag>)
    requires WellFormedTags(tags)
    requires Plain(r)
    ensures Accepts(e, NewBasket(n, Flags([], [], [r], [])), name, tags) <==> KeyFound(e, r, tags)
    ensures Accepts(e, NewBasket(n, Flags([], [], [], [r])), name, tags) <==> !KeyFound(e, r, tags)
  {
    LiteralPattern(r);
    assert HasWitness(e, TagPattern(r), tags) <==> KeyFound(e, r, tags) by {
      if KeyFound(e, r, tags) {
        var j :| 0 <= j < |tags| && Matches(e, r, tags[j][0]);
        assert TagSatisfies(e, TagPattern(r), tags[j]);
      }
    }
    assert AllTagsMatch(e, [r], tags) <==> HasWitness(e, TagPattern(r), tags) by {
      assert [r][0] == r;
    }
  }

  /** A basket with two sub-baskets: its own filters AND either sub-basket. */
  lemma TwoSubBaskets(e: Engine, b: Basket, s1: Basket, s2: Basket, name: string, tags: seq<Tag>)
    requires WellFormedTags(tags)
    requires |b.baskets| == 0
    ensures Accepts(e, b.(baskets := [s1, s2]), name, tags) <==>
      Accepts(e, b, name, tags) && (Accepts(e, s1, name, tags) || Accepts(e, s2, name, tags))
  {
    var b' := b.(baskets := [s1, s2]);
    assert b'.baskets[0] == s1 && b'.baskets[1] == s2;
    assert OwnAccepts(e, b', name, tags) == OwnAccepts(e, b, name, tags);
  }

  /** A pattern without ':' and without white space at either end. */
  ghost predicate Plain(r: string)
  {
    ':' !in r && (r == [] || (!IsSpace(r[0]) && !IsSpace(r[|r| - 1])))
  }

  /** The tag patterns of the documentation examples are plain. */
  lemma PlainExamplePatterns()
    ensures Plain("@flaky") && Plain("@wip") && Plain("@ipv6") && Plain("@wip|@flaky")
  {
  }

  /** A pattern without ':' or surrounding white space is used as the key
      pattern unchanged. */
  lemma LiteralPattern(r: string)
    requires Plain(r)
    ensures TagPattern(r) == [r]
  {
    TrimSpaceUnpadded(r);
  }

  /** `NTT_LIST_BASKETS=flaky:wip` (here for any variable `key`) with
      neither basket defined loads the baskets `-R @flaky` and `-R @wip`, in
      that order. */
  lemma UndefinedBasketsLoad(parse: FlagParser, env: map<string, string>, key: string)
    requires Getenv(env, key) == "flaky:wip"
    requires key + "_" + "flaky" !in env && key + "_" + "wip" !in env
    requires parse("flaky", ["-R", "@flaky"]) == Ok(Flags([], [], ["@flaky"], []))
    requires parse("wip", ["-R", "@wip"]) == Ok(Flags([], [], ["@wip"], []))
    ensures LoadFromEnvSpec(parse, env, key) ==
      Loaded([NewBasket("flaky", Flags([], [], ["@flaky"], [])),
              NewBasket("wip", Flags([], [], ["@wip"], []))], None)
  {
    SplitFlakyWip();
    BasketArgsUndefined(env, key, "flaky");
    BasketArgsUndefined(env, key, "wip");
    TagNames();
    LoadTwoNames(parse, env, key, "flaky", "wip", Flags([], [], ["@flaky"], []), Flags([], [], ["@wip"], []));
  }

  /** Two non-empty names whose arguments parse load two baskets, in order. */
  lemma LoadTwoNames(parse: FlagParser, env: map<string, string>, key: string,
                     n1: string, n2: string, f1: Flags, f2: Flags)
    requires n1 != "" && n2 != ""
    requires parse(n1, BasketArgs(env, key, n1)) == Ok(f1)
    requires parse(n2, BasketArgs(env, key, n2)) == Ok(f2)
    ensures LoadNames(parse, env, key, [n1, n2]) == Loaded([NewBasket(n1, f1), NewBasket(n2, f2)], None)
  {
    assert [n1, n2][..1] == [n1];
    assert [n1][..0] == [];
    assert LoadNames(parse, env, key, [n1]) == Loaded([NewBasket(n1, f1)], None);
  }

  /** The tag names `-R @<name>` gives the two example baskets. */
  lemma TagNames()
    ensures "@" + "flaky" == "@flaky" && "@" + "wip" == "@wip"
  {
  }

  /** The names listed by `flaky:wip`. */
  lemma SplitFlakyWip()
    ensures Split("flaky:wip", ':') == ["flaky", "wip"]
  {
    SplitFirstAt("flaky", ':', "wip");
    assert "flaky" + [':'] + "wip" == "flaky:wip";
  }

  /** The arguments of a basket whose variable is unset. */
  lemma BasketArgsUndefined(env: map<string, string>, key: string, name: string)
    requires key + "_" + name !in env
    ensures BasketArgs(env, key, name) == ["-R", "@" + name]
  {
  }

  /** The default basket with the sub-baskets `-R @flaky` and `-R @wip`
      selects, for any engine in which `@wip|@flaky` is found exactly where
      `@wip` or `@flaky` is, the same objects as `--tags-regex=@wip|@flaky`. */
  lemma UndefinedBasketsSelect(e: Engine, name: string, tags: seq<Tag>)
    requires WellFormedTags(tags)
    requires forall s :: Matches(e, "@wip|@flaky", s) <==> Matches(e, "@wip", s) || Matches(e, "@flaky", s)
    ensures var flaky := NewBasket("flaky", Flags([], [], ["@flaky"], []));
      var wip := NewBasket("wip", Flags([], [], ["@wip"], []));
      Accepts(e, DefaultBasket.(baskets := [flaky, wip]), name, tags) <==>
      Accepts(e, NewBasket("default", Flags([], [], ["@wip|@flaky"], [])), name, tags)
  {
    var flaky := NewBasket("flaky", Flags([], [], ["@flaky"], []));
    var wip := NewBasket("wip", Flags([], [], ["@wip"], []));
    PlainExamplePatterns();
    TagBasket(e, "flaky", "@flaky", name, tags);
    TagBasket(e, "wip", "@wip", name, tags);
    TagBasket(e, "default", "@wip|@flaky", name, tags);
    EmptyBasketSelectsAll(e, DefaultBasket, name, tags);
    TwoSubBaskets(e, DefaultBasket, flaky, wip, name, tags);
    if KeyFound(e, "@wip|@flaky", tags) {
      var j :| 0 <= j < |tags| && Matches(e, "@wip|@flaky", tags[j][0]);
      assert Matches(e, "@wip", tags[j][0]) || Matches(e, "@flaky", tags[j][0]);
    }
    if KeyFound(e, "@wip", tags) {
      var j :| 0 <= j < |tags| && Matches(e, "@wip", tags[j][0]);
      assert Matches(e, "@wip|@flaky", tags[j][0]);
    }
    if KeyFound(e, "@flaky", tags) {
      var j :| 0 <= j < |tags| && Matches(e, "@flaky", tags[j][0]);
      assert Matches(e, "@wip|@flaky", tags[j][0]);
    }
  }
}
