/** The test-object filter ("basket") of filter.go.

    A basket selects test objects by name and by doc tags. Its own four
    lists of regular expressions are ANDed: every name pattern must match,
    the name is dropped when every exclude pattern matches, every tag
    pattern needs a tag that satisfies it, and the tags are dropped when
    every tag-exclude pattern is satisfied. Sub-baskets are ORed, and the
    result is ANDed with the basket's own filters. Sub-baskets are loaded
    from a colon-separated environment variable. */
module Filter {
  import opened GoStrings
  import opened Regex

  datatype Option<T> = None | Some(value: T)

  datatype Result<T> = Ok(value: T) | Err(msg: string)

  /** A doc tag of a test object, as the lister extracts it: key, value. */
  type Tag = seq<string>

  /** Every tag has a key and a value (matchAllTags reads both). */
  predicate WellFormedTags(tags: seq<Tag>) {
    forall j | 0 <= j < |tags| :: |tags[j]| >= 2
  }

  /** The value of a basket. Sub-baskets are held by value, as Go copies a
      Basket into its parent's slice. */
  datatype Basket = Basket(
    name: string,
    nameRegex: seq<string>,
    nameExclude: seq<string>,
    tagsRegex: seq<string>,
    tagsExclude: seq<string>,
    baskets: seq<Basket>)

  /** What the flags --regex, --exclude, --tags-regex and --tags-exclude
      parse to. */
  datatype Flags = Flags(
    regex: seq<string>,
    exclude: seq<string>,
    tagsRegex: seq<string>,
    tagsExclude: seq<string>)

  /** NewBasket once its arguments are parsed: a basket without sub-baskets. */
  function NewBasket(name: string, f: Flags): Basket {
    Basket(name, f.regex, f.exclude, f.tagsRegex, f.tagsExclude, [])
  }

  /** DefaultBasket is NewBasket("default") without arguments: all four
      lists are empty. */
  const DefaultBasket: Basket := NewBasket("default", Flags([], [], [], []))

  // Specification of matching.

  /** Every pattern matches `s`. */
  predicate AllMatch(e: Engine, regexes: seq<string>, s: string) {
    forall i | 0 <= i < |regexes| :: Matches(e, regexes[i], s)
  }

  /** Each part trimmed of white space. */
  function TrimAll(parts: seq<string>): (r: seq<string>)
    ensures |r| == |parts|
    ensures forall m | 0 <= m < |r| :: r[m] == TrimSpace(parts[m])
  {
    if parts == [] then [] else [TrimSpace(parts[0])] + TrimAll(parts[1..])
  }

  /** A tag pattern cut at its first ':' into a key pattern and, when there
      is a colon, a value pattern; both trimmed of white space. */
  function TagPattern(r: string): (f: seq<string>)
    ensures 1 <= |f| <= 2
  {
    TrimAll(SplitFirst(r, ':'))
  }

  /** `tag` is a witness for the split pattern `f`: its key matches the key
      pattern and, if there is a value pattern, its value matches that. */
  predicate TagSatisfies(e: Engine, f: seq<string>, tag: Tag)
    requires 1 <= |f| && 2 <= |tag|
  {
    Matches(e, f[0], tag[0]) && (|f| > 1 ==> Matches(e, f[1], tag[1]))
  }

  /** Some tag is a witness for the split pattern `f`. */
  predicate HasWitness(e: Engine, f: seq<string>, tags: seq<Tag>)
    requires 1 <= |f| && WellFormedTags(tags)
  {
    exists j | 0 <= j < |tags| :: TagSatisfies(e, f, tags[j])
  }

  /** Every tag pattern has a witness among `tags`. */
  predicate AllTagsMatch(e: Engine, regexes: seq<string>, tags: seq<Tag>)
    requires WellFormedTags(tags)
  {
    forall i | 0 <= i < |regexes| :: HasWitness(e, TagPattern(regexes[i]), tags)
  }

  /** The basket's own filters (Go's `match`). */
  predicate OwnAccepts(e: Engine, b: Basket, name: string, tags: seq<Tag>)
    requires WellFormedTags(tags)
  {
    && AllMatch(e, b.nameRegex, name)
    && !(|b.nameExclude| > 0 && AllMatch(e, b.nameExclude, name))
    && (|b.tagsRegex| > 0 ==> |tags| > 0 && AllTagsMatch(e, b.tagsRegex, tags))
    && !(|b.tagsExclude| > 0 && AllTagsMatch(e, b.tagsExclude, tags))
  }

  /** The basket's own filters, ANDed with the OR of its sub-baskets when it
      has any (Go's `Match`). */
  predicate Accepts(e: Engine, b: Basket, name: string, tags: seq<Tag>)
    requires WellFormedTags(tags)
    decreases b
  {
    && OwnAccepts(e, b, name, tags)
    && (|b.baskets| == 0 ||
        exists k | 0 <= k < |b.baskets| :: Accepts(e, b.baskets[k], name, tags))
  }

  // The matching code.

  /** matchAll: stops at the first pattern that does not match. */
  method MatchAll(e: Engine, regexes: seq<string>, s: string) returns (ok: bool)
    ensures ok == AllMatch(e, regexes, s)
  {
    for i := 0 to |regexes|
      invariant forall i' | 0 <= i' < i :: Matches(e, regexes[i'], s)
    {
      if !Matches(e, regexes[i], s) {
        return false;
      }
    }
    return true;
  }

  /** The loop of matchAllTags that trims every part of the split pattern
      in place. */
  method TrimEach(f: array<string>)
    modifies f
    ensures f[..] == TrimAll(old(f[..]))
  {
    for k := 0 to f.Length
      invariant forall m | 0 <= m < k :: f[m] == TrimSpace(old(f[m]))
      invariant forall m | k <= m < f.Length :: f[m] == old(f[m])
    {
      f[k] := TrimSpace(f[k]);
    }
  }

  /** `f := strings.SplitN(r, ":", 2)`, then every part of `f` trimmed in
      place. */
  method SplitTagPattern(r: string) returns (f: array<string>)
    ensures fresh(f) && f[..] == TagPattern(r)
  {
    var parts := SplitFirst(r, ':');
    f := new string[|parts|](k requires 0 <= k < |parts| => parts[k]);
    TrimEach(f);
  }

  /** matchAllTags: for each pattern, look for a witness tag and go on with
      the next pattern as soon as one is found; a pattern without one ends
      the search with false. */
  method MatchAllTags(e: Engine, regexes: seq<string>, tags: seq<Tag>) returns (ok: bool)
    requires WellFormedTags(tags)
    ensures ok == AllTagsMatch(e, regexes, tags)
  {
    label next:
    for i := 0 to |regexes|
      invariant forall i' | 0 <= i' < i :: HasWitness(e, TagPattern(regexes[i']), tags)
    {
      var f := SplitTagPattern(regexes[i]);
      ghost var pattern := TagPattern(regexes[i]);
      assert f[..] == pattern;
      for j := 0 to |tags|
        invariant f[..] == pattern
        invariant forall j' | 0 <= j' < j :: !TagSatisfies(e, pattern, tags[j'])
      {
        var tag := tags[j];
        if !Matches(e, f[0], tag[0]) {
          continue;
        }
        if f.Length > 1 {
          if !Matches(e, f[1], tag[1]) {
            continue;
          }
        }
        assert TagSatisfies(e, pattern, tags[j]);
        continue next;
      }
      assert !HasWitness(e, pattern, tags);
      return false;
    }
    return true;
  }

  /** match: the name rules, then the tag rules, each with an early exit. */
  method MatchOwn(e: Engine, b: Basket, name: string, tags: seq<Tag>) returns (ok: bool)
    requires WellFormedTags(tags)
    ensures ok == OwnAccepts(e, b, name, tags)
  {
    var m := MatchAll(e, b.nameRegex, name);
    if !m {
      return false;
    }
    if |b.nameExclude| > 0 {
      m := MatchAll(e, b.nameExclude, name);
      if m {
        return false;
      }
    }
    if |b.tagsRegex| > 0 {
      if |tags| == 0 {
        return false;
      }
      m := MatchAllTags(e, b.tagsRegex, tags);
      if !m {
        return false;
      }
    }
    if |b.tagsExclude| > 0 {
      m := MatchAllTags(e, b.tagsExclude, tags);
      if m {
        return false;
      }
    }
    return true;
  }

  /** Match: the own filters decide alone for a basket without sub-baskets;
      otherwise the first sub-basket that matches, together with the own
      filters, gives true. */
  method Match(e: Engine, b: Basket, name: string, tags: seq<Tag>) returns (ok: bool)
    requires WellFormedTags(tags)
    ensures ok == Accepts(e, b, name, tags)
    decreases b
  {
    var own := MatchOwn(e, b, name, tags);
    if |b.baskets| == 0 {
      return own;
    }
    for k := 0 to |b.baskets|
      invariant forall k' | 0 <= k' < k :: !(Accepts(e, b.baskets[k'], name, tags) && own)
    {
      var sub := Match(e, b.baskets[k], name, tags);
      if sub && own {
        assert Accepts(e, b.baskets[k], name, tags);
        return true;
      }
    }
    assert !(own && exists k | 0 <= k < |b.baskets| :: Accepts(e, b.baskets[k], name, tags));
    return false;
  }

  // Loading sub-baskets from the environment.

  /** env.Getenv over a given environment: "" for an unset variable. */
  function Getenv(env: map<string, string>, key: string): string {
    if key in env then env[key] else ""
  }

  /** The arguments of the basket `name`: a basket whose variable <key>_<name>
      is unset or only white space selects by the tag `@<name>`; otherwise
      its arguments are the non-empty, space-free fields of its definition. */
  function BasketArgs(env: map<string, string>, key: string, name: string): (args: seq<string>)
    ensures AllSpace(Getenv(env, key + "_" + name)) ==> args == ["-R", "@" + name]
    ensures !AllSpace(Getenv(env, key + "_" + name)) ==>
      && args == Fields(Getenv(env, key + "_" + name))
      && |args| > 0
      && forall k | 0 <= k < |args| :: args[k] != [] && NoSpace(args[k])
  {
    var fields := Fields(Getenv(env, key + "_" + name));
    FieldsSpec(Getenv(env, key + "_" + name));
    if |fields| == 0 then ["-R", "@" + name] else fields
  }

  /** The flag parser NewBasket uses: the flags from a basket's name and
      arguments, or the parser's error. */
  type FlagParser = (string, seq<string>) -> Result<Flags>

  /** The sub-baskets loaded so far and the error that stopped loading. */
  datatype Loaded = Loaded(added: seq<Basket>, err: Option<string>)

  /** One turn of the loading loop: an empty name is skipped, any other is
      parsed and appended, and nothing happens once an error has occurred. */
  function LoadStep(parse: FlagParser, env: map<string, string>, key: string,
                    prev: Loaded, name: string): Loaded
  {
    if prev.err.Some? || name == "" then prev
    else
      match parse(name, BasketArgs(env, key, name))
      case Err(msg) => Loaded(prev.added, Some(msg))
      case Ok(f) => Loaded(prev.added + [NewBasket(name, f)], None)
  }

  /** The outcome of the loading loop over `names`: the turns taken in
      order. */
  function LoadNames(parse: FlagParser, env: map<string, string>, key: string, names: seq<string>): Loaded
    decreases |names|
  {
    if names == [] then Loaded([], None)
    else LoadStep(parse, env, key, LoadNames(parse, env, key, names[..|names| - 1]), names[|names| - 1])
  }

  /** The outcome of LoadFromEnv(key): nothing for an empty or unset
      variable, otherwise the loop over its colon-separated names. */
  function LoadFromEnvSpec(parse: FlagParser, env: map<string, string>, key: string): Loaded {
    var s := Getenv(env, key);
    if s == "" then Loaded([], None) else LoadNames(parse, env, key, Split(s, ':'))
  }

  /** Once a parse error has stopped loading, later names change nothing. */
  lemma {:induction false} LoadStopsAtError(parse: FlagParser, env: map<string, string>, key: string,
                                            names: seq<string>, n: nat)
    requires n <= |names| && LoadNames(parse, env, key, names[..n]).err.Some?
    ensures LoadNames(parse, env, key, names) == LoadNames(parse, env, key, names[..n])
    decreases |names|
  {
    if n < |names| {
      assert names[..|names| - 1][..n] == names[..n];
      LoadStopsAtError(parse, env, key, names[..|names| - 1], n);
    } else {
      assert names[..n] == names;
    }
  }

  /** A Basket variable, updated through Go's *Basket receiver. */
  class BasketVar {
    var name: string
    var nameRegex: seq<string>
    var nameExclude: seq<string>
    var tagsRegex: seq<string>
    var tagsExclude: seq<string>
    var baskets: seq<Basket>

    function Value(): Basket
      reads this
    {
      Basket(name, nameRegex, nameExclude, tagsRegex, tagsExclude, baskets)
    }

    constructor (b: Basket)
      ensures Value() == b
    {
      name, nameRegex, nameExclude := b.name, b.nameRegex, b.nameExclude;
      tagsRegex, tagsExclude, baskets := b.tagsRegex, b.tagsExclude, b.baskets;
    }

    /** LoadFromEnv: appends a sub-basket for each non-empty name listed in
        the variable `key`, in order, after the existing ones; only the
        sub-basket list changes. */
    method LoadFromEnv(parse: FlagParser, env: map<string, string>, key: string)
      returns (err: Option<string>)
      modifies this`baskets
      ensures baskets == old(baskets) + LoadFromEnvSpec(parse, env, key).added
      ensures err == LoadFromEnvSpec(parse, env, key).err
    {
      var s := Getenv(env, key);
      if s == "" {
        return None;
      }
      var names := Split(s, ':');
      for i := 0 to |names|
        invariant LoadNames(parse, env, key, names[..i]).err == None
        invariant baskets == old(baskets) + LoadNames(parse, env, key, names[..i]).added
      {
        assert names[..i + 1][..i] == names[..i];
        var name := names[i];
        if name == "" {
          continue;
        }
        var args := Fields(Getenv(env, key + "_" + name));
        if |args| == 0 {
          args := ["-R", "@" + name];
        }
        var sb := parse(name, args);
        if sb.Err? {
          LoadStopsAtError(parse, env, key, names, i + 1);
          return Some(sb.msg);
        }
        baskets := baskets + [NewBasket(name, sb.value)];
      }
      assert names[..|names|] == names;
      return None;
    }
  }
}
