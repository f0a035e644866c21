/**
 * The query engine of `get_data`: the case-insensitive search over every
 * field of a record, then the page window and the page count.
 */
module Query {
  import opened Wrappers
  import opened PyBuiltins
  import opened Ritten

  /** `page` when the request does not give one (or gives something that is not an integer). */
  const DefaultPage: int := 1

  /** `per_page` when the request does not give one; the web client always sends 20. */
  const DefaultPerPage: int := 50

  /** `needle in str(value).lower()` for one field value. */
  predicate FieldMatches(v: Value, needle: string) {
    Contains(needle, Lower(Str(v)))
  }

  /** `any(...)` over a record's values in key order: true at the first field that matches. */
  predicate AnyFieldMatches(vs: seq<Value>, needle: string)
    decreases |vs|
  {
    vs != [] && (FieldMatches(vs[0], needle) || AnyFieldMatches(vs[1..], needle))
  }

  /** A record matches the lower-cased term when one of its eleven values does. */
  predicate RitMatches(r: Rit, needle: string) {
    AnyFieldMatches(Values(r), needle)
  }

  /** The short-circuiting `any` is the logical OR over all fields. */
  lemma {:induction false} AnyFieldMatchesIff(vs: seq<Value>, needle: string)
    ensures AnyFieldMatches(vs, needle) <==> exists i :: 0 <= i < |vs| && FieldMatches(vs[i], needle)
    decreases |vs|
  {
    if vs != [] {
      AnyFieldMatchesIff(vs[1..], needle);
      assert forall i :: 1 <= i < |vs| ==> vs[i] == vs[1..][i - 1];
      if exists i :: 0 <= i < |vs[1..]| && FieldMatches(vs[1..][i], needle) {
        var i :| 0 <= i < |vs[1..]| && FieldMatches(vs[1..][i], needle);
        assert FieldMatches(vs[i + 1], needle);
      }
    }
  }

  /** The records of `data` matching `needle`, kept in order. */
  function Filtered(data: seq<Rit>, needle: string): (r: seq<Rit>)
    ensures |r| <= |data|
    ensures forall i :: 0 <= i < |r| ==> RitMatches(r[i], needle)
    decreases |data|
  {
    if data == [] then []
    else
      var last := data[|data| - 1];
      Filtered(data[..|data| - 1], needle) + (if RitMatches(last, needle) then [last] else [])
  }

  /** The matched sequence: all records for an empty term, else those matching the lower-cased term. */
  function Matches(data: seq<Rit>, search: string): (r: seq<Rit>)
    ensures |r| <= |data|
    ensures search != "" ==> forall i :: 0 <= i < |r| ==> RitMatches(r[i], Lower(search))
  {
    if search == "" then data else Filtered(data, Lower(search))
  }

  /** Lines 153-160: the search loop, run only for a non-empty term. */
  method Search(data: seq<Rit>, search: string) returns (matched: seq<Rit>)
    ensures matched == Matches(data, search)
  {
    matched := data;
    if search != "" {
      var filtered: seq<Rit> := [];
      var searchLower := Lower(search);
      for i := 0 to |data|
        invariant filtered == Filtered(data[..i], searchLower)
      {
        assert data[..i + 1][..i] == data[..i];
        var rit := data[i];
        if RitMatches(rit, searchLower) {
          filtered := filtered + [rit];
        }
      }
      assert data[..|data|] == data;
      matched := filtered;
    }
  }

  /** The search ignores case: a term finds the same records as its lower-cased form. */
  lemma SearchIgnoresCase(data: seq<Rit>, search: string)
    ensures Matches(data, search) == Matches(data, Lower(search))
  {
    var low := Lower(search);
    assert Lower(low) == low;
  }

  /** A record is matched exactly when it is in the data and one of its fields contains the term. */
  lemma {:induction false} FilteredMembership(data: seq<Rit>, needle: string, r: Rit)
    ensures r in Filtered(data, needle) <==> r in data && RitMatches(r, needle)
    decreases |data|
  {
    if data != [] {
      var init := data[..|data| - 1];
      FilteredMembership(init, needle, r);
      assert data == init + [data[|data| - 1]];
    }
  }

  /** Filtering a concatenation filters each part: the matches keep the records' order. */
  lemma {:induction false} FilteredAppend(a: seq<Rit>, b: seq<Rit>, needle: string)
    ensures Filtered(a + b, needle) == Filtered(a, needle) + Filtered(b, needle)
    decreases |b|
  {
    if b == [] {
      assert a + b == a;
    } else {
      var b' := b[..|b| - 1];
      assert (a + b)[..|a + b| - 1] == a + b';
      FilteredAppend(a, b', needle);
    }
  }

  /** Nothing is dropped exactly when every record matches. */
  lemma {:induction false} FilteredKeepsAllIff(data: seq<Rit>, needle: string)
    ensures Filtered(data, needle) == data <==> forall r :: r in data ==> RitMatches(r, needle)
    decreases |data|
  {
    if data != [] {
      var init, last := data[..|data| - 1], data[|data| - 1];
      assert data == init + [last];
      FilteredKeepsAllIff(init, needle);
      if Filtered(data, needle) == data {
        forall r | r in data ensures RitMatches(r, needle) {
          FilteredMembership(data, needle, r);
        }
      }
      if forall r :: r in data ==> RitMatches(r, needle) {
        assert forall r :: r in init ==> r in data;
      }
    }
  }

  /** A field element present without text prints as "None", so the term "none" matches its record. */
  lemma AbsentTextMatchesNone(r: Rit, i: nat)
    requires i < |FieldKeys| && Values(r)[i].None?
    ensures RitMatches(r, "none")
  {
    var vs := Values(r);
    assert Lower("None") == "none";
    assert StartsWith(Lower(Str(vs[i])), "none");
    assert FieldMatches(vs[i], "none");
    AnyFieldMatchesIff(vs, "none");
  }

  /** `data[start:start + per_page]` with `start = (page - 1) * per_page` (lines 164-166). */
  function Window(matches: seq<Rit>, page: int, perPage: int): (r: seq<Rit>)
    ensures |r| <= |matches|
    ensures 0 <= perPage ==> |r| <= perPage
  {
    var start := (page - 1) * perPage;
    Slice(matches, start, start + perPage)
  }

  /** `(total + per_page - 1) // per_page` (line 174); `per_page == 0` raises instead. */
  function PageCount(total: nat, perPage: int): int
    requires perPage != 0
  {
    FloorDiv(total + perPage - 1, perPage)
  }

  function Min(a: int, b: int): int {
    if a < b then a else b
  }

  function Max(a: int, b: int): int {
    if a < b then b else a
  }

  lemma ProductNonNegative(a: int, b: int)
    requires a >= 0 && b >= 0
    ensures a * b >= 0
  {
  }

  /** For a positive page and page size the window is the plain slice between the clamped page bounds. */
  lemma WindowIsSlice(matches: seq<Rit>, page: int, perPage: int)
    requires page >= 1 && perPage >= 1
    ensures (page - 1) * perPage >= 0
    ensures Window(matches, page, perPage)
      == matches[Min((page - 1) * perPage, |matches|)..Min((page - 1) * perPage + perPage, |matches|)]
  {
    ProductNonNegative(page - 1, perPage);
  }

  /** For a positive page and page size the window is that page of the matches, short or empty at the end. */
  lemma WindowIsPage(matches: seq<Rit>, page: int, perPage: int)
    requires page >= 1 && perPage >= 1
    ensures |Window(matches, page, perPage)| == Min(perPage, Max(0, |matches| - (page - 1) * perPage))
    ensures forall i :: 0 <= i < |Window(matches, page, perPage)| ==>
      (page - 1) * perPage + i < |matches| && Window(matches, page, perPage)[i] == matches[(page - 1) * perPage + i]
  {
    WindowIsSlice(matches, page, perPage);
  }

  /** The page count is the ceiling of total / per_page: zero for no matches, never one page too many or too few. */
  lemma PageCountIsCeiling(total: nat, perPage: int)
    requires perPage >= 1
    ensures PageCount(total, perPage) >= 0
    ensures (PageCount(total, perPage) - 1) * perPage < total <= PageCount(total, perPage) * perPage
    ensures total == 0 <==> PageCount(total, perPage) == 0
  {
    var q := PageCount(total, perPage);
    assert perPage * q <= total + perPage - 1 < perPage * q + perPage;
    assert (q - 1) * perPage == q * perPage - perPage;
  }

  /** A page past the last is empty, and is not an error. */
  lemma PastLastPageIsEmpty(matches: seq<Rit>, page: int, perPage: int)
    requires perPage >= 1 && page > PageCount(|matches|, perPage)
    ensures Window(matches, page, perPage) == []
  {
    var q := PageCount(|matches|, perPage);
    PageCountIsCeiling(|matches|, perPage);
    var start := (page - 1) * perPage;
    assert start - q * perPage == (page - 1 - q) * perPage;
    ProductNonNegative(page - 1 - q, perPage);
    WindowIsSlice(matches, page, perPage);
    assert Min(start, |matches|) == |matches|;
  }

  lemma ProductStep(n: int, b: int)
    ensures n * b == (n - 1) * b + b
  {
  }

  lemma PrefixSplit(s: seq<Rit>, lo: int, hi: int)
    requires 0 <= lo <= hi <= |s|
    ensures s[..hi] == s[..lo] + s[lo..hi]
  {
  }

  /** Pages 1 to n of the matches, concatenated. */
  function FirstPages(matches: seq<Rit>, perPage: int, n: nat): seq<Rit> {
    if n == 0 then [] else FirstPages(matches, perPage, n - 1) + Window(matches, n, perPage)
  }

  /** Pages 1 to n together are the first n * per_page matches. */
  lemma {:induction false} FirstPagesArePrefix(matches: seq<Rit>, perPage: int, n: nat)
    requires perPage >= 1
    ensures n * perPage >= 0
    ensures FirstPages(matches, perPage, n) == matches[..Min(n * perPage, |matches|)]
  {
    ProductNonNegative(n, perPage);
    if n > 0 {
      FirstPagesArePrefix(matches, perPage, n - 1);
      WindowIsSlice(matches, n, perPage);
      ProductStep(n, perPage);
      var start := (n - 1) * perPage;
      PrefixSplit(matches, Min(start, |matches|), Min(start + perPage, |matches|));
    }
  }

  /** Reading every page from 1 to the page count gives back exactly the matches. */
  lemma AllPagesReassemble(matches: seq<Rit>, perPage: int)
    requires perPage >= 1
    ensures PageCount(|matches|, perPage) >= 0
    ensures FirstPages(matches, perPage, PageCount(|matches|, perPage)) == matches
  {
    PageCountIsCeiling(|matches|, perPage);
    FirstPagesArePrefix(matches, perPage, PageCount(|matches|, perPage));
  }

  /** 45 records at 20 per page: three pages, the last holding 5 records. */
  lemma FortyFiveRecordsExample(matches: seq<Rit>)
    requires |matches| == 45
    ensures PageCount(45, 20) == 3
    ensures |Window(matches, 1, 20)| == 20 && |Window(matches, 3, 20)| == 5
    ensures Window(matches, 4, 20) == []
  {
    WindowIsPage(matches, 1, 20);
    WindowIsPage(matches, 3, 20);
    WindowIsPage(matches, 4, 20);
  }
}
