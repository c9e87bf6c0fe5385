/** The pieces of Go's `strings` and `unicode` packages that the basket
    filter relies on: white space, trimming, splitting into fields and
    splitting at a separator. The functions compute; the lemmas after each
    group say what their results mean. */
module GoStrings {

  /** The white-space characters of unicode.IsSpace outside the range
      U+2000..U+200A: the Latin-1 spaces and the other Unicode White_Space
      characters. */
  const SpaceChars: set<char> := {
    ' ', '\t', '\n', '\r', '\U{000B}', '\U{000C}', '\U{0085}', '\U{00A0}',
    '\U{1680}', '\U{2028}', '\U{2029}', '\U{202F}', '\U{205F}', '\U{3000}'
  }

  /** unicode.IsSpace. */
  predicate IsSpace(c: char) {
    c in SpaceChars || '\U{2000}' <= c <= '\U{200A}'
  }

  predicate AllSpace(s: string) {
    forall i | 0 <= i < |s| :: IsSpace(s[i])
  }

  predicate NoSpace(s: string) {
    forall i | 0 <= i < |s| :: !IsSpace(s[i])
  }

  // Trimming.

  /** `s` without its leading white space. */
  function TrimLeft(s: string): (r: string)
    ensures |r| <= |s|
  {
    if s != [] && IsSpace(s[0]) then TrimLeft(s[1..]) else s
  }

  /** `s` without its trailing white space. */
  function TrimRight(s: string): (r: string)
    ensures |r| <= |s|
  {
    if s != [] && IsSpace(s[|s| - 1]) then TrimRight(s[..|s| - 1]) else s
  }

  /** strings.TrimSpace. */
  function TrimSpace(s: string): string {
    TrimRight(TrimLeft(s))
  }

  /** TrimLeft drops a prefix of white space and stops at the first other
      character. */
  lemma {:induction false} TrimLeftSpec(s: string)
    ensures var r := TrimLeft(s);
      && r == s[|s| - |r|..]
      && AllSpace(s[..|s| - |r|])
      && (r == [] || !IsSpace(r[0]))
  {
    if s != [] && IsSpace(s[0]) {
      TrimLeftSpec(s[1..]);
      var r := TrimLeft(s);
      assert s[1..][..|s| - 1 - |r|] == s[1..|s| - |r|];
      assert forall i | 1 <= i < |s| - |r| :: s[i] == s[1..][..|s| - 1 - |r|][i - 1];
    }
  }

  /** TrimRight drops a suffix of white space and stops at the last other
      character. */
  lemma {:induction false} TrimRightSpec(s: string)
    ensures var r := TrimRight(s);
      && r == s[..|r|]
      && AllSpace(s[|r|..])
      && (r == [] || !IsSpace(r[|r| - 1]))
  {
    if s != [] && IsSpace(s[|s| - 1]) {
      var s' := s[..|s| - 1];
      TrimRightSpec(s');
      var r := TrimRight(s);
      assert forall i | |r| <= i < |s| - 1 :: s[i] == s'[|r|..][i - |r|];
    }
  }

  /** strings.TrimSpace: the result neither starts nor ends with white
      space, it is empty exactly when `s` is all white space, and what was
      cut off on either side is white space. */
  lemma TrimSpaceSpec(s: string)
    ensures var r := TrimSpace(s);
      && (r == [] || (!IsSpace(r[0]) && !IsSpace(r[|r| - 1])))
      && (r == [] <==> AllSpace(s))
      && exists i | 0 <= i <= |s| - |r| ::
           s[i..i + |r|] == r && AllSpace(s[..i]) && AllSpace(s[i + |r|..])
  {
    var t := TrimLeft(s);
    var r := TrimRight(t);
    TrimLeftSpec(s);
    TrimRightSpec(t);
    var i := |s| - |t|;
    assert s[i..i + |r|] == r;
    assert AllSpace(s[i + |r|..]) by {
      assert s[i + |r|..] == t[|r|..];
    }
    if r != [] {
      assert r[0] == t[0];
    } else {
      assert AllSpace(s) by {
        forall k | 0 <= k < |s| ensures IsSpace(s[k]) {
          assert s[k] == s[..i][k];
        }
      }
    }
  }

  /** A string that neither starts nor ends with white space is its own
      trimming. */
  lemma TrimSpaceUnpadded(s: string)
    requires s == [] || (!IsSpace(s[0]) && !IsSpace(s[|s| - 1]))
    ensures TrimSpace(s) == s
  {
  }

  /** TrimSpace is idempotent. */
  lemma TrimSpaceIdempotent(s: string)
    ensures TrimSpace(TrimSpace(s)) == TrimSpace(s)
  {
    TrimSpaceSpec(s);
    TrimSpaceUnpadded(TrimSpace(s));
  }

  // Fields.

  /** The longest prefix of `s` without white space. */
  function Word(s: string): (w: string)
    ensures |w| <= |s|
  {
    if s == [] || IsSpace(s[0]) then [] else [s[0]] + Word(s[1..])
  }

  lemma {:induction false} WordSpec(s: string)
    ensures var w := Word(s);
      && w == s[..|w|]
      && NoSpace(w)
      && (|w| < |s| ==> IsSpace(s[|w|]))
  {
    if s != [] && !IsSpace(s[0]) {
      WordSpec(s[1..]);
    }
  }

  /** strings.Fields: the maximal runs of non-space characters of `s`, in
      order. */
  function Fields(s: string): seq<string>
    decreases |s|
  {
    var t := TrimLeft(s);
    if t == [] then []
    else
      var w := Word(t);
      TrimLeftSpec(s);
      WordSpec(t);
      [w] + Fields(t[|w|..])
  }

  /** No field is empty or holds white space, and there are none exactly when
      `s` is empty or all white space. */
  lemma {:induction false} FieldsSpec(s: string)
    ensures var r := Fields(s);
      && (forall k | 0 <= k < |r| :: r[k] != [] && NoSpace(r[k]))
      && (r == [] <==> AllSpace(s))
    decreases |s|
  {
    var t := TrimLeft(s);
    TrimLeftSpec(s);
    if t == [] {
      assert s[..|s|] == s;
    } else {
      var w := Word(t);
      WordSpec(t);
      assert w != [] by { assert !IsSpace(t[0]); }
      assert !AllSpace(s) by { assert t[0] == s[|s| - |t|]; }
      var rest := Fields(t[|w|..]);
      FieldsSpec(t[|w|..]);
      var r := [w] + rest;
      assert Fields(s) == r;
      forall k | 0 <= k < |r| ensures r[k] != [] && NoSpace(r[k]) {
        if k > 0 { assert r[k] == rest[k - 1]; }
      }
    }
  }

  /** A space-free word followed by white space, or by nothing, is read
      back whole. */
  lemma {:induction false} WordOfPrefix(w: string, rest: string)
    requires NoSpace(w)
    requires rest == [] || IsSpace(rest[0])
    ensures Word(w + rest) == w
  {
    if w != [] {
      assert (w + rest)[1..] == w[1..] + rest;
      WordOfPrefix(w[1..], rest);
    } else {
      assert w + rest == rest;
    }
  }

  /** Leading white space is skipped by TrimLeft. */
  lemma {:induction false} TrimLeftSkipsSpace(sp: string, s: string)
    requires AllSpace(sp)
    ensures TrimLeft(sp + s) == TrimLeft(s)
  {
    if sp != [] {
      assert (sp + s)[1..] == sp[1..] + s;
      TrimLeftSkipsSpace(sp[1..], s);
    } else {
      assert sp + s == s;
    }
  }

  /** Leading white space does not change the fields. */
  lemma FieldsSkipsSpace(sp: string, s: string)
    requires AllSpace(sp)
    ensures Fields(sp + s) == Fields(s)
  {
    TrimLeftSkipsSpace(sp, s);
  }

  /** A non-empty, space-free word followed by a run of white space of any
      length and kind is the first field; the fields after it are those of
      what follows the run. */
  lemma FieldsAfterWord(w: string, sp: string, s: string)
    requires w != [] && NoSpace(w)
    requires sp != [] && AllSpace(sp)
    ensures Fields(w + sp + s) == [w] + Fields(s)
  {
    var x := w + sp + s;
    assert x == w + (sp + s);
    assert TrimLeft(x) == x;
    WordOfPrefix(w, sp + s);
    assert x[|w|..] == sp + s;
    FieldsSkipsSpace(sp, s);
  }

  /** A non-empty, space-free word on its own is the one field. */
  lemma FieldsOfWord(w: string)
    requires w != [] && NoSpace(w)
    ensures Fields(w) == [w]
  {
    assert TrimLeft(w) == w;
    WordOfPrefix(w, []);
    assert w + [] == w;
  }

  /** Cutting `a` at `n` and appending `b` to the second part. */
  lemma AppendAfterCut(a: string, b: string, n: nat)
    requires n <= |a|
    ensures a + b == a[..n] + (a[n..] + b)
    ensures (a + b)[n..] == a[n..] + b
  {
    assert a == a[..n] + a[n..];
  }

  /** A string of white space trims to nothing. */
  lemma {:induction false} TrimLeftAllSpace(sp: string)
    requires AllSpace(sp)
    ensures TrimLeft(sp) == []
  {
    if sp != [] {
      TrimLeftAllSpace(sp[1..]);
    }
  }

  /** Trailing white space does not change the fields. */
  lemma {:induction false} FieldsIgnoresTrailingSpace(s: string, sp: string)
    requires AllSpace(sp)
    ensures Fields(s + sp) == Fields(s)
    decreases |s|
  {
    var t := TrimLeft(s);
    TrimLeftSpec(s);
    var n := |s| - |t|;
    AppendAfterCut(s, sp, n);
    TrimLeftSkipsSpace(s[..n], t + sp);
    if t == [] {
      TrimLeftAllSpace(sp);
      assert t + sp == sp;
    } else {
      assert TrimLeft(t + sp) == t + sp;
      var w := Word(t);
      WordSpec(t);
      AppendAfterCut(t, sp, |w|);
      var rest := t[|w|..] + sp;
      if |w| < |t| {
        assert rest[0] == t[|w|];
      } else {
        assert rest == sp;
      }
      WordOfPrefix(w, rest);
      FieldsIgnoresTrailingSpace(t[|w|..], sp);
    }
  }

  /** The fields of non-empty, space-free words joined by single spaces are
      those words, in order. */
  lemma {:induction false} FieldsJoin(ws: seq<string>)
    requires forall k | 0 <= k < |ws| :: ws[k] != [] && NoSpace(ws[k])
    ensures Fields(Join(ws, ' ')) == ws
  {
    if |ws| == 1 {
      WordOfPrefix(ws[0], []);
      assert ws[0] + [] == ws[0];
      assert ws[0][|ws[0]|..] == [];
    } else if |ws| > 1 {
      var tail := ws[1..];
      assert forall k | 0 <= k < |tail| :: tail[k] != [] && NoSpace(tail[k]) by {
        forall k | 0 <= k < |tail| ensures tail[k] != [] && NoSpace(tail[k]) {
          assert tail[k] == ws[k + 1];
        }
      }
      FieldsJoin(tail);
      var j := Join(tail, ' ');
      var s := ws[0] + ([' '] + j);
      assert [ws[0]] + tail == ws;
      JoinCons(ws[0], tail, ' ');
      assert Join(ws, ' ') == s;
      assert TrimLeft(s) == s;
      WordOfPrefix(ws[0], [' '] + j);
      assert s[|ws[0]|..] == [' '] + j;
      FieldsSkipsSpace([' '], j);
      assert Fields(s) == [ws[0]] + tail;
    }
  }

  // Splitting at a separator.

  /** The position of the first `c` in `s` (strings.IndexByte, when present). */
  function IndexOf(s: string, c: char): (i: nat)
    requires c in s
    ensures i < |s| && s[i] == c
  {
    if s[0] == c then 0 else 1 + IndexOf(s[1..], c)
  }

  lemma {:induction false} IndexOfIsFirst(s: string, c: char)
    requires c in s
    ensures c !in s[..IndexOf(s, c)]
  {
    if s[0] != c {
      IndexOfIsFirst(s[1..], c);
      assert s[..IndexOf(s, c)] == [s[0]] + s[1..][..IndexOf(s[1..], c)];
    }
  }

  /** strings.Join: the parts with `sep` between consecutive ones. */
  function Join(parts: seq<string>, sep: char): string {
    if parts == [] then ""
    else if |parts| == 1 then parts[0]
    else parts[0] + [sep] + Join(parts[1..], sep)
  }

  /** strings.Split: the pieces of `s` between the occurrences of `sep`,
      empty pieces included. */
  function Split(s: string, sep: char): (parts: seq<string>)
    ensures |parts| >= 1
    decreases |s|
  {
    if sep !in s then [s]
    else
      var i := IndexOf(s, sep);
      [s[..i]] + Split(s[i + 1..], sep)
  }

  /** Joining pieces puts `sep` between the first piece and the rest. */
  lemma JoinCons(a: string, rest: seq<string>, sep: char)
    requires rest != []
    ensures Join([a] + rest, sep) == a + [sep] + Join(rest, sep)
  {
    assert ([a] + rest)[1..] == rest;
  }

  /** A string is the part before position `i`, the character at `i` and
      the part after it. */
  lemma CutAt(s: string, i: nat)
    requires i < |s|
    ensures s[..i] + [s[i]] + s[i + 1..] == s
  {
    assert s[i..] == [s[i]] + s[i + 1..];
    assert s[..i] + s[i..] == s;
  }

  /** Joining the pieces of Split gives `s` back, and no piece holds `sep`. */
  lemma {:induction false} SplitSpec(s: string, sep: char)
    ensures var parts := Split(s, sep);
      && (forall k | 0 <= k < |parts| :: sep !in parts[k])
      && Join(parts, sep) == s
    decreases |s|
  {
    if sep in s {
      var i := IndexOf(s, sep);
      IndexOfIsFirst(s, sep);
      var rest := Split(s[i + 1..], sep);
      SplitSpec(s[i + 1..], sep);
      var parts := [s[..i]] + rest;
      assert Split(s, sep) == parts;
      JoinCons(s[..i], rest, sep);
      CutAt(s, i);
      forall k | 0 <= k < |parts| ensures sep !in parts[k] {
        if k > 0 { assert parts[k] == rest[k - 1]; }
      }
    }
  }

  /** The other round trip: pieces free of `sep` are what Split finds in
      their join. */
  lemma {:induction false} SplitJoin(parts: seq<string>, sep: char)
    requires |parts| >= 1
    requires forall k | 0 <= k < |parts| :: sep !in parts[k]
    ensures Split(Join(parts, sep), sep) == parts
  {
    if |parts| > 1 {
      var tail := parts[1..];
      assert forall k | 0 <= k < |tail| :: sep !in tail[k] by {
        forall k | 0 <= k < |tail| ensures sep !in tail[k] {
          assert tail[k] == parts[k + 1];
        }
      }
      SplitJoin(tail, sep);
      var j := Join(tail, sep);
      assert Join(parts, sep) == parts[0] + [sep] + j;
      SplitFirstAt(parts[0], sep, j);
      assert [parts[0]] + tail == parts;
    }
  }

  /** strings.SplitN(s, sep, 2): `s` cut at its first `sep`, or `s` alone
      when it holds no `sep`. */
  function SplitFirst(s: string, sep: char): (parts: seq<string>)
    ensures 1 <= |parts| <= 2
  {
    if sep !in s then [s]
    else
      var i := IndexOf(s, sep);
      [s[..i], s[i + 1..]]
  }

  /** SplitN(s, sep, 2) yields one part exactly when `s` has no `sep`; the
      first part is free of `sep` and joining the parts gives `s` back. */
  lemma SplitFirstSpec(s: string, sep: char)
    ensures var parts := SplitFirst(s, sep);
      && (|parts| == 1 <==> sep !in s)
      && sep !in parts[0]
      && Join(parts, sep) == s
  {
    if sep in s {
      var i := IndexOf(s, sep);
      IndexOfIsFirst(s, sep);
      CutAt(s, i);
    }
  }

  /** Cutting `key + [sep] + rest`, where `key` holds no `sep`, at its first
      separator gives back `key` and `rest`, whatever `rest` holds. */
  lemma SplitFirstAt(key: string, sep: char, rest: string)
    requires sep !in key
    ensures SplitFirst(key + [sep] + rest, sep) == [key, rest]
    ensures Split(key + [sep] + rest, sep) == [key] + Split(rest, sep)
  {
    var s := key + [sep] + rest;
    assert s[|key|] == sep;
    var i := IndexOf(s, sep);
    IndexOfIsFirst(s, sep);
    assert i == |key|;
    assert s[..i] == key;
    assert s[i + 1..] == rest;
  }
}
