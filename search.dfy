/** The search filter of the symbol grid: with an empty search text every
    entry of `symbols15` is shown, otherwise the entries that contain the
    search text, ignoring case, in catalog order.

    Foundation's locale-dependent comparison is replaced by an explicit ASCII
    case fold; every property below is stated relative to that fold.
 */
module Search {
  import opened Catalog

  // ---------------------------------------------------------------------------
  // Case folding and substring search

  /** ASCII lower-casing of one character. */
  function Lower(c: char): (d: char)
    ensures 'A' <= c <= 'Z' ==> d == (c as int + ('a' as int - 'A' as int)) as char
    ensures !('A' <= c <= 'Z') ==> d == c
    ensures !('A' <= d <= 'Z')
  {
    if 'A' <= c <= 'Z' then (c as int + ('a' as int - 'A' as int)) as char else c
  }

  /** ASCII lower-casing of a string. */
  function Fold(s: string): (r: string)
    ensures |r| == |s|
    ensures forall i :: 0 <= i < |s| ==> r[i] == Lower(s[i])
  {
    if s == [] then [] else [Lower(s[0])] + Fold(s[1..])
  }

  /** Folding a folded string changes nothing. */
  lemma FoldIdempotent(s: string)
    ensures Fold(Fold(s)) == Fold(s)
  {
  }

  /** A string without ASCII capitals is its own fold. */
  lemma FoldLowerCase(s: string)
    requires forall i :: 0 <= i < |s| ==> !('A' <= s[i] <= 'Z')
    ensures Fold(s) == s
  {
  }

  predicate StartsWith(s: string, prefix: string) {
    |prefix| <= |s| && s[..|prefix|] == prefix
  }

  /** Whether `needle` occurs in `hay` at some offset. */
  function Contains(hay: string, needle: string): bool
    decreases |hay|
  {
    StartsWith(hay, needle) || (hay != [] && Contains(hay[1..], needle))
  }

  /** `needle` occurs in `hay` starting at offset `i`. */
  predicate OccursAt(hay: string, needle: string, i: int) {
    0 <= i && i + |needle| <= |hay| && hay[i..i + |needle|] == needle
  }

  /** Contains agrees with the definition of an occurrence by its offset. */
  lemma {:induction false} ContainsIff(hay: string, needle: string)
    ensures Contains(hay, needle) <==> exists i :: OccursAt(hay, needle, i)
    decreases |hay|
  {
    if StartsWith(hay, needle) {
      assert OccursAt(hay, needle, 0);
    }
    if hay != [] {
      ContainsIff(hay[1..], needle);
      if Contains(hay[1..], needle) {
        var i :| OccursAt(hay[1..], needle, i);
        assert hay[i + 1..i + 1 + |needle|] == hay[1..][i..i + |needle|];
        assert OccursAt(hay, needle, i + 1);
      }
      if i :| OccursAt(hay, needle, i) {
        if i > 0 {
          assert hay[1..][i - 1..i - 1 + |needle|] == hay[i..i + |needle|];
          assert OccursAt(hay[1..], needle, i - 1);
        }
      }
    } else if i :| OccursAt(hay, needle, i) {
      assert StartsWith(hay, needle);
    }
  }

  /** `s.localizedCaseInsensitiveContains(query)` under the ASCII fold: the
      folded query occurs in the folded symbol. Like Foundation's, it never
      finds the empty string. */
  predicate CaseInsensitiveContains(s: string, query: string): (b: bool)
    ensures query == [] ==> !b
    ensures b <==> query != [] && exists i :: OccursAt(Fold(s), Fold(query), i)
  {
    ContainsIff(Fold(s), Fold(query));
    query != [] && Contains(Fold(s), Fold(query))
  }

  /** The filter's predicate: an empty search keeps everything, any other
      search keeps the symbols in which it occurs, ignoring case. */
  predicate Matches(s: Symbol, searchText: string): (b: bool)
    ensures searchText == [] ==> b
    ensures searchText != [] ==> (b <==> exists i :: OccursAt(Fold(s), Fold(searchText), i))
  {
    var found := CaseInsensitiveContains(s, searchText);
    assert searchText != [] ==> (found <==> exists i :: OccursAt(Fold(s), Fold(searchText), i));
    searchText == [] || found
  }

  /** Case is ignored on both sides: symbols and search texts that fold
      alike are matched alike. */
  lemma MatchesIgnoresCase(s: Symbol, s': Symbol, searchText: string, searchText': string)
    requires Fold(s) == Fold(s') && Fold(searchText) == Fold(searchText')
    ensures Matches(s, searchText) == Matches(s', searchText')
  {
    assert |searchText| == |Fold(searchText)| == |searchText'|;
  }

  /** 'A' and 'a' fold alike, and so does every other ASCII letter pair. */
  lemma LowerPairs(k: int)
    requires 0 <= k < 26
    ensures Lower(('A' as int + k) as char) == Lower(('a' as int + k) as char) == ('a' as int + k) as char
  {
  }

  // ---------------------------------------------------------------------------
  // The filter

  /** The symbols of the grid: the catalog entries that match, in catalog order. */
  function Filter(catalog: seq<Symbol>, searchText: string): (r: seq<Symbol>)
    ensures |r| <= |catalog|
    ensures forall i :: 0 <= i < |r| ==> Matches(r[i], searchText)
  {
    if catalog == [] then []
    else if Matches(catalog[0], searchText) then [catalog[0]] + Filter(catalog[1..], searchText)
    else Filter(catalog[1..], searchText)
  }

  /** `a` can be obtained from `b` by deleting elements. */
  predicate IsSubsequence(a: seq<Symbol>, b: seq<Symbol>)
    decreases |b|
  {
    if a == [] then true
    else if b == [] then false
    else (a[0] == b[0] && IsSubsequence(a[1..], b[1..])) || IsSubsequence(a, b[1..])
  }

  /** With an empty search field the whole catalog is shown, unchanged and in order. */
  lemma {:induction false} FilterEmptySearch(catalog: seq<Symbol>)
    ensures Filter(catalog, []) == catalog
  {
    if catalog != [] {
      FilterEmptySearch(catalog[1..]);
      assert catalog == [catalog[0]] + catalog[1..];
    }
  }

  /** A symbol is shown iff it is in the catalog and matches the search text. */
  lemma {:induction false} FilterMembership(catalog: seq<Symbol>, searchText: string, x: Symbol)
    ensures x in Filter(catalog, searchText) <==> x in catalog && Matches(x, searchText)
  {
    if catalog != [] {
      FilterMembership(catalog[1..], searchText, x);
      assert catalog == [catalog[0]] + catalog[1..];
    }
  }

  /** A shown symbol appears as often as in the catalog; a hidden one not at all. */
  lemma {:induction false} FilterCount(catalog: seq<Symbol>, searchText: string, x: Symbol)
    ensures multiset(Filter(catalog, searchText))[x] ==
            if Matches(x, searchText) then multiset(catalog)[x] else 0
  {
    if catalog != [] {
      FilterCount(catalog[1..], searchText, x);
      assert catalog == [catalog[0]] + catalog[1..];
      assert multiset(catalog) == multiset([catalog[0]]) + multiset(catalog[1..]);
      var rest := Filter(catalog[1..], searchText);
      if Matches(catalog[0], searchText) {
        assert multiset([catalog[0]] + rest) == multiset([catalog[0]]) + multiset(rest);
      }
    }
  }

  /** The grid keeps the catalog's order: it is a subsequence of the catalog. */
  lemma {:induction false} FilterIsSubsequence(catalog: seq<Symbol>, searchText: string)
    ensures IsSubsequence(Filter(catalog, searchText), catalog)
  {
    if catalog != [] {
      FilterIsSubsequence(catalog[1..], searchText);
      var r := Filter(catalog, searchText);
      if Matches(catalog[0], searchText) {
        assert r[0] == catalog[0] && r[1..] == Filter(catalog[1..], searchText);
      } else if r != [] {
        assert IsSubsequence(r, catalog[1..]);
      }
    }
  }

  /** Filtering the grid again with the same text changes nothing. */
  lemma {:induction false} FilterIdempotent(catalog: seq<Symbol>, searchText: string)
    ensures Filter(Filter(catalog, searchText), searchText) == Filter(catalog, searchText)
  {
    if catalog != [] {
      FilterIdempotent(catalog[1..], searchText);
      var rest := Filter(catalog[1..], searchText);
      if Matches(catalog[0], searchText) {
        var r := [catalog[0]] + rest;
        assert r[0] == catalog[0] && r[1..] == rest;
      }
    }
  }

  /** The search ignores case: a query and its lower-cased form show the same grid. */
  lemma {:induction false} FilterIgnoresQueryCase(catalog: seq<Symbol>, searchText: string)
    ensures Filter(catalog, Fold(searchText)) == Filter(catalog, searchText)
  {
    if catalog != [] {
      FilterIgnoresQueryCase(catalog[1..], searchText);
      FoldIdempotent(searchText);
      assert Matches(catalog[0], Fold(searchText)) == Matches(catalog[0], searchText);
    }
  }

  /** A shown symbol comes from the catalog, so it is never empty when the catalog was parsed. */
  lemma FilterWellFormed(catalog: seq<Symbol>, searchText: string)
    requires WellFormed(catalog)
    ensures WellFormed(Filter(catalog, searchText))
  {
    var r := Filter(catalog, searchText);
    forall i | 0 <= i < |r| ensures r[i] != [] && NoNewline(r[i]) {
      FilterMembership(catalog, searchText, r[i]);
    }
  }

  /** "star" does not occur in "square.and.arrow.up", in any case. The
      strings are parameters pinned by the precondition, so that the proof
      goes character by character rather than by evaluating the literals. */
  lemma StarMissExample(miss: Symbol, star: string)
    requires miss == "square.and.arrow.up" && star == "star"
    ensures !Matches(miss, star)
  {
    assert forall i | 0 <= i < |miss| :: !('A' <= miss[i] <= 'Z');
    FoldLowerCase(miss);
    FoldLowerCase(star);
    assert forall i | 0 <= i < |miss| - 1 :: miss[i] != 's' || miss[i + 1] != 't';
    forall i | 0 <= i && i + 4 <= |miss| ensures !OccursAt(miss, star, i) {
      assert miss[i..i + 4][0] == miss[i] && miss[i..i + 4][1] == miss[i + 1];
    }
  }

  /** A search for "star" in a three-symbol catalog shows the two symbols
      that contain it, in catalog order. */
  lemma StarSearchExample(catalog: seq<Symbol>, star: string)
    requires |catalog| == 3 && star == "star"
    requires catalog[0] == "square.and.arrow.up" && catalog[1] == "star" && catalog[2] == "star.fill"
    ensures Filter(catalog, star) == ["star", "star.fill"]
  {
    var miss, plain, fill := catalog[0], catalog[1], catalog[2];
    StarMissExample(miss, star);
    FoldLowerCase(star);
    FoldLowerCase(fill);
    assert OccursAt(Fold(plain), Fold(star), 0);
    assert OccursAt(Fold(fill), Fold(star), 0);
    assert Filter(catalog[2..], star) == [fill] + Filter(catalog[3..], star);
    assert Filter(catalog[1..], star) == [plain] + Filter(catalog[2..], star);
    assert catalog[3..] == [];
  }
}
