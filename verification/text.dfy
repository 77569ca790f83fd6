/** Character-level helpers the log scanner is built from: Go's notion of white
    space, prefix tests, deletion of one character, and the splitting of a line
    into maximal runs of non-space characters ("fields"). */
module Text {

  /** The white-space characters of Go's `fmt` scanner: U+0009..U+000D, space,
      U+0085, U+00A0, U+1680, U+2000..U+200A, U+2028, U+2029, U+202F, U+205F and
      U+3000 (the same set as Go's `unicode.IsSpace`). */
  predicate IsSpace(c: char) {
    || ('\t' <= c <= '\r')
    || c == ' '
    || c == '\U{0085}'
    || c == '\U{00A0}'
    || c == '\U{1680}'
    || ('\U{2000}' <= c <= '\U{200A}')
    || c == '\U{2028}'
    || c == '\U{2029}'
    || c == '\U{202F}'
    || c == '\U{205F}'
    || c == '\U{3000}'
  }

  predicate SpaceFree(s: string) {
    forall i :: 0 <= i < |s| ==> !IsSpace(s[i])
  }

  predicate AllSpace(s: string) {
    forall i :: 0 <= i < |s| ==> IsSpace(s[i])
  }

  /** Go's `strings.HasPrefix(s, p)`. */
  predicate HasPrefix(s: string, p: string) {
    |p| <= |s| && s[..|p|] == p
  }

  /** Go's `strings.ReplaceAll(s, string(c), "")`: `s` with every `c` removed
      and every other character kept, with its multiplicity. */
  function Delete(s: string, c: char): (r: string)
    ensures c !in r
    decreases |s|
  {
    if s == [] then []
    else
      assert s == [s[0]] + s[1..];
      (if s[0] == c then [] else [s[0]]) + Delete(s[1..], c)
  }

  /** Deleting keeps every other character with its multiplicity. */
  lemma {:induction false} DeleteCounts(s: string, c: char)
    ensures multiset(Delete(s, c)) == multiset(s)[c := 0]
    decreases |s|
  {
    if s != [] {
      DeleteCounts(s[1..], c);
      assert s == [s[0]] + s[1..];
    }
  }

  /** Deleting distributes over concatenation, so it keeps the order of the
      surviving characters. */
  lemma {:induction false} DeleteConcat(x: string, y: string, c: char)
    ensures Delete(x + y, c) == Delete(x, c) + Delete(y, c)
    decreases |x|
  {
    if x == [] {
      assert x + y == y;
    } else {
      assert (x + y)[1..] == x[1..] + y;
      DeleteConcat(x[1..], y, c);
    }
  }

  /** A string without `c` is left unchanged. */
  lemma {:induction false} DeleteAbsent(s: string, c: char)
    requires c !in s
    ensures Delete(s, c) == s
    decreases |s|
  {
    if s != [] {
      assert c !in s[1..];
      DeleteAbsent(s[1..], c);
      assert s == [s[0]] + s[1..];
    }
  }

  /** The number of white-space characters `s` starts with. */
  function LeadingSpaces(s: string): (n: nat)
    ensures n <= |s|
    ensures n == |s| || !IsSpace(s[n])
    decreases |s|
  {
    if s != [] && IsSpace(s[0]) then 1 + LeadingSpaces(s[1..]) else 0
  }

  /** The leading white space is white space throughout. */
  lemma {:induction false} LeadingSpacesAreSpace(s: string)
    ensures AllSpace(s[..LeadingSpaces(s)])
    decreases |s|
  {
    if s != [] && IsSpace(s[0]) {
      LeadingSpacesAreSpace(s[1..]);
      var n := LeadingSpaces(s);
      assert forall i :: 1 <= i < n ==> s[..n][i] == s[1..][..n - 1][i - 1];
    }
  }

  /** The length of the longest prefix of `s` without white space. */
  function WordLength(s: string): (n: nat)
    ensures n <= |s|
    ensures n == |s| || IsSpace(s[n])
    decreases |s|
  {
    if s != [] && !IsSpace(s[0]) then 1 + WordLength(s[1..]) else 0
  }

  /** The first word holds no white space. */
  lemma {:induction false} WordIsSpaceFree(s: string)
    ensures SpaceFree(s[..WordLength(s)])
    decreases |s|
  {
    if s != [] && !IsSpace(s[0]) {
      WordIsSpaceFree(s[1..]);
      var n := WordLength(s);
      assert forall i :: 1 <= i < n ==> s[..n][i] == s[1..][..n - 1][i - 1];
    }
  }

  /** The maximal runs of non-space characters of `s`, in order (what the
      `%s` verbs and the literal words of a scan format are matched against). */
  function Fields(s: string): (fs: seq<string>)
    decreases |s|
  {
    var a := LeadingSpaces(s);
    if a == |s| then []
    else
      var b := a + WordLength(s[a..]);
      [s[a..b]] + Fields(s[b..])
  }

  /** Every field is non-empty and free of white space. */
  lemma {:induction false} FieldsAreTokens(s: string)
    ensures AllWords(Fields(s))
    decreases |s|
  {
    if LeadingSpaces(s) < |s| {
      var a, b := FirstField(s);
      FieldsAreTokens(s[b..]);
      WordIsSpaceFree(s[a..]);
      assert s[a..][..b - a] == s[a..b];
      AllWordsCons(s[a..b], Fields(s[b..]));
    }
  }

  /** Each of `ws` is a non-empty run of non-space characters. */
  predicate AllWords(ws: seq<string>) {
    forall i :: 0 <= i < |ws| ==> ws[i] != [] && SpaceFree(ws[i])
  }

  lemma AllWordsCons(w: string, ws: seq<string>)
    requires w != [] && SpaceFree(w) && AllWords(ws)
    ensures AllWords([w] + ws)
  {
  }

  lemma AllWordsConcat(x: seq<string>, y: seq<string>)
    requires AllWords(x) && AllWords(y)
    ensures AllWords(x + y)
  {
  }

  /** A character absent from `s` is absent from each of its fields. */
  lemma {:induction false} FieldsAvoid(s: string, c: char)
    requires c !in s
    ensures forall i :: 0 <= i < |Fields(s)| ==> c !in Fields(s)[i]
    decreases |s|
  {
    if LeadingSpaces(s) < |s| {
      var a, b := FirstField(s);
      FieldsAvoid(s[b..], c);
      assert c !in s[a..b];
      assert c !in s[b..];
    }
  }

  /** The white space around and between the fields of `s`: one more gap than
      there are fields. */
  function Gaps(s: string): seq<string>
    decreases |s|
  {
    var a := LeadingSpaces(s);
    if a == |s| then [s]
    else
      var b := a + WordLength(s[a..]);
      [s[..a]] + Gaps(s[b..])
  }

  /** There is one more gap than there are fields. */
  lemma {:induction false} GapsLength(s: string)
    ensures |Gaps(s)| == |Fields(s)| + 1
    decreases |s|
  {
    if LeadingSpaces(s) < |s| {
      var a, b := FirstField(s);
      GapsLength(s[b..]);
    }
  }

  /** Gaps then fields, alternately: `gaps[0] + toks[0] + gaps[1] + ... + gaps[n]`. */
  function Join(gaps: seq<string>, toks: seq<string>): string
    requires |gaps| == |toks| + 1
    decreases |toks|
  {
    if toks == [] then gaps[0] else gaps[0] + toks[0] + Join(gaps[1..], toks[1..])
  }

  /** Deleting a character from joined strings deletes it from each piece:
      if the pieces lose their `c`s to become `gaps'` and `toks'`, the joined
      string becomes `Join(gaps', toks')`. */
  lemma {:induction false} DeleteJoin(gaps: seq<string>, toks: seq<string>,
                                      gaps': seq<string>, toks': seq<string>, c: char)
    requires |gaps| == |toks| + 1 && |gaps'| == |gaps| && |toks'| == |toks|
    requires forall i :: 0 <= i < |gaps| ==> Delete(gaps[i], c) == gaps'[i]
    requires forall i :: 0 <= i < |toks| ==> Delete(toks[i], c) == toks'[i]
    ensures Delete(Join(gaps, toks), c) == Join(gaps', toks')
    decreases |toks|
  {
    if toks != [] {
      var tail := Join(gaps[1..], toks[1..]);
      DeleteConcat(gaps[0] + toks[0], tail, c);
      DeleteConcat(gaps[0], toks[0], c);
      DeleteJoin(gaps[1..], toks[1..], gaps'[1..], toks'[1..], c);
    }
  }

  /** Gaps that keep adjacent fields apart: all white space, and every gap
      between two fields non-empty (the outer two may be empty). */
  predicate WellSpaced(gaps: seq<string>) {
    && (forall i :: 0 <= i < |gaps| ==> AllSpace(gaps[i]))
    && (forall i :: 0 < i < |gaps| - 1 ==> gaps[i] != [])
  }

  lemma {:induction false} SpacesOver(g: string, x: string)
    requires AllSpace(g)
    requires x == [] || !IsSpace(x[0])
    ensures LeadingSpaces(g + x) == |g|
    decreases |g|
  {
    if g == [] {
      assert g + x == x;
    } else {
      assert (g + x)[1..] == g[1..] + x;
      SpacesOver(g[1..], x);
    }
  }

  lemma {:induction false} WordOver(w: string, y: string)
    requires SpaceFree(w)
    requires y == [] || IsSpace(y[0])
    ensures WordLength(w + y) == |w|
    decreases |w|
  {
    if w == [] {
      assert w + y == y;
    } else {
      assert (w + y)[1..] == w[1..] + y;
      WordOver(w[1..], y);
    }
  }

  /** One step of splitting: after leading white space, the first field comes
      off whole and splitting continues with what follows it. */
  lemma FieldsStep(g: string, w: string, rest: string)
    requires AllSpace(g)
    requires w != [] && SpaceFree(w)
    requires rest == [] || IsSpace(rest[0])
    ensures Fields(g + w + rest) == [w] + Fields(rest)
  {
    var s := g + w + rest;
    assert s == g + (w + rest);
    SpacesOver(g, w + rest);
    assert s[|g|..] == w + rest;
    WordOver(w, rest);
    assert s[|g|..|g| + |w|] == w;
    assert s[|g| + |w|..] == rest;
  }

  /** Splitting is the inverse of joining: fields separated by well-spaced gaps
      come back out of `Fields` exactly, in order. */
  lemma {:induction false} FieldsOfJoin(gaps: seq<string>, toks: seq<string>)
    requires |gaps| == |toks| + 1
    requires WellSpaced(gaps)
    requires AllWords(toks)
    ensures Fields(Join(gaps, toks)) == toks
    decreases |toks|
  {
    if toks == [] {
      SpacesOver(gaps[0], []);
      assert gaps[0] + [] == gaps[0];
    } else {
      var tail := Join(gaps[1..], toks[1..]);
      assert WellSpaced(gaps[1..]) by {
        forall i | 0 < i < |gaps[1..]| - 1 ensures gaps[1..][i] != [] {
          assert gaps[1..][i] == gaps[i + 1];
        }
      }
      assert tail == [] || IsSpace(tail[0]) by {
        if |toks| == 1 {
          assert tail == gaps[1];
        } else {
          assert gaps[1] != [] && AllSpace(gaps[1]);
          assert tail == gaps[1] + toks[1] + Join(gaps[2..], toks[2..]);
        }
      }
      FieldsStep(gaps[0], toks[0], tail);
      FieldsOfJoin(gaps[1..], toks[1..]);
      assert toks == [toks[0]] + toks[1..];
    }
  }

  /** The first field of a string that has one, and where it ends. */
  lemma FirstField(s: string) returns (a: nat, b: nat)
    requires LeadingSpaces(s) < |s|
    ensures a == LeadingSpaces(s) && b == a + WordLength(s[a..]) && a < b <= |s|
    ensures b == |s| || IsSpace(s[b])
    ensures Fields(s) == [s[a..b]] + Fields(s[b..])
    ensures Gaps(s) == [s[..a]] + Gaps(s[b..])
  {
    a := LeadingSpaces(s);
    b := a + WordLength(s[a..]);
    WordEnd(s, a, b);
    FieldsFirst(s, a, b);
    GapsFirst(s, a, b);
  }

  /** The word at `a` is not empty and ends at white space or at the end. */
  lemma WordEnd(s: string, a: nat, b: nat)
    requires a < |s| && !IsSpace(s[a]) && b == a + WordLength(s[a..])
    ensures a < b <= |s| && (b == |s| || IsSpace(s[b]))
  {
    var t := s[a..];
    assert t[0] == s[a];
    assert b < |s| ==> t[b - a] == s[b];
  }

  lemma FieldsFirst(s: string, a: nat, b: nat)
    requires a == LeadingSpaces(s) < |s| && b == a + WordLength(s[a..])
    ensures Fields(s) == [s[a..b]] + Fields(s[b..])
  {
  }

  lemma GapsFirst(s: string, a: nat, b: nat)
    requires a == LeadingSpaces(s) < |s| && b == a + WordLength(s[a..])
    ensures Gaps(s) == [s[..a]] + Gaps(s[b..])
  {
  }

  /** Joining is the inverse of splitting: `s` is its fields put back between
      its gaps, so `Fields` drops nothing but the white space in `Gaps`. */
  lemma {:induction false} JoinOfFields(s: string)
    ensures |Gaps(s)| == |Fields(s)| + 1
    ensures Join(Gaps(s), Fields(s)) == s
    decreases |s|
  {
    GapsLength(s);
    if LeadingSpaces(s) < |s| {
      var a, b := FirstField(s);
      var rest := s[b..];
      assert Join(Gaps(s), Fields(s)) == s[..a] + s[a..b] + Join(Gaps(rest), Fields(rest)) by {
        JoinCons(s[..a], s[a..b], Gaps(rest), Fields(rest));
      }
      JoinOfFields(rest);
      Split3(s, a, b);
    }
  }

  lemma Split3(s: string, a: nat, b: nat)
    requires a <= b <= |s|
    ensures s[..a] + s[a..b] + s[b..] == s
  {
  }

  lemma JoinCons(g: string, w: string, gaps: seq<string>, toks: seq<string>)
    requires |gaps| == |toks| + 1
    ensures Join([g] + gaps, [w] + toks) == g + w + Join(gaps, toks)
  {
    assert ([g] + gaps)[1..] == gaps;
    assert ([w] + toks)[1..] == toks;
  }

  /** The gaps of any string are well spaced: `Fields` splits at every run of
      white space and nowhere else. */
  lemma {:induction false} GapsWellSpaced(s: string)
    ensures WellSpaced(Gaps(s))
    decreases |s|
  {
    LeadingSpacesAreSpace(s);
    if LeadingSpaces(s) == |s| {
      assert s[..|s|] == s;
    } else {
      var a, b := FirstField(s);
      var rest := s[b..];
      GapsWellSpaced(rest);
      if |Gaps(rest)| > 1 {
        GapsLength(rest);
        assert rest != [] by {
          assert Fields(rest) != [];
        }
        GapsLead(rest);
      }
      WellSpacedCons(s[..a], Gaps(rest));
    }
  }

  /** A white-space gap in front of well-spaced gaps keeps them well spaced,
      as long as the gap it moves inside is not empty. */
  lemma WellSpacedCons(g: string, gaps: seq<string>)
    requires AllSpace(g) && WellSpaced(gaps)
    requires |gaps| > 1 ==> gaps[0] != []
    ensures WellSpaced([g] + gaps)
  {
    var gs := [g] + gaps;
    assert forall i :: 1 <= i < |gs| ==> gs[i] == gaps[i - 1];
  }

  /** A string that begins with white space has a non-empty leading gap. */
  lemma GapsLead(s: string)
    requires s != [] && IsSpace(s[0])
    ensures Gaps(s)[0] != []
  {
  }

  /** Concatenation regrouped from the left to the right. */
  lemma Assoc(x: string, y: string, z: string)
    ensures (x + y) + z == x + (y + z)
  {
  }
}
