/**
 * The listing logic of the warc2text output browser: the pages a
 * language's records are shown in, the size of a language, and the
 * totals and ordering of a model's language list.
 */
module Warc2text {
  import opened Base

  /** Records per page. */
  const PAGE: nat := 10

  function Min(a: int, b: int): int { if a <= b then a else b }

  // ---------------------------------------------------------------- Page

  /** One page of a list: its number, the bounds of its slice, and the slice. */
  datatype Page<T> = Page(page: nat, start: nat, end: nat, items: seq<T>)

  /**
   * `Page(items, page)`: the slice `[page * PAGE, (page + 1) * PAGE)` of the
   * list, its end clamped to the list's length; a page that starts past the
   * end is empty, as Python's slicing makes it.
   */
  function MakePage<T>(items: seq<T>, page: nat): (p: Page<T>)
    ensures p.page == page && p.start == page * PAGE && p.end == Min((page + 1) * PAGE, |items|)
    ensures |p.items| == if p.start <= p.end then p.end - p.start else 0
    ensures forall k :: 0 <= k < |p.items| ==> p.items[k] == items[p.start + k]
  {
    var start := page * PAGE;
    var end := Min((page + 1) * PAGE, |items|);
    Page(page, start, end, if start <= end then items[start..end] else [])
  }

  // ---------------------------------------------------------------- Pagination

  /** All the items, and the pages they are shown on. */
  datatype Pagination<T> = Pagination(items: seq<T>, pages: seq<Page<T>>)

  /** The first `n` pages of `items`. */
  function Pages<T>(items: seq<T>, n: nat): (ps: seq<Page<T>>)
    ensures |ps| == n
  {
    seq(n, i requires 0 <= i => MakePage(items, i))
  }

  /**
   * `Pagination(items)` as written: `int(len(items) / PAGE)` pages, a count
   * rounded down, so the pages hold no more than the items and fewer than
   * PAGE items are left over.
   */
  function Paginate<T>(items: seq<T>): (r: Pagination<T>)
    ensures r.items == items
    ensures |r.pages| * PAGE <= |items| < (|r.pages| + 1) * PAGE
  {
    Pagination(items, Pages(items, |items| / PAGE))
  }

  /** What the pages show, one after the other. */
  function Shown<T>(pages: seq<Page<T>>): seq<T> {
    if |pages| == 0 then [] else Shown(pages[..|pages| - 1]) + pages[|pages| - 1].items
  }

  /** The first `n` pages show the list's first `n * PAGE` items, as far as the list goes. */
  lemma {:induction false} ShownPages<T>(items: seq<T>, n: nat)
    requires n == 0 || (n - 1) * PAGE <= |items|
    ensures Shown(Pages(items, n)) == items[..Min(n * PAGE, |items|)]
  {
    if n > 0 {
      var m := n - 1;
      var ps := Pages(items, n);
      var lo := m * PAGE;
      assert n * PAGE == lo + PAGE;
      var hi := Min(lo + PAGE, |items|);
      assert Shown(ps[..m]) == items[..lo] by {
        assert ps[..m] == Pages(items, m);
        assert m == 0 || (m - 1) * PAGE <= |items| by {
          assert (m - 1) * PAGE == lo - PAGE;
        }
        ShownPages(items, m);
      }
      assert ps[m].items == items[lo..hi] by {
        assert ps[m] == MakePage(items, m);
      }
      assert Shown(ps) == Shown(ps[..m]) + ps[m].items;
      assert items[..lo] + items[lo..hi] == items[..hi];
    }
  }

  /**
   * Every page of a `Pagination` is numbered by its place in the list, is
   * full, and shows the next PAGE items: the pages are contiguous, in order
   * and do not overlap.
   */
  lemma PaginateFullPages<T>(items: seq<T>)
    ensures var r := Paginate(items);
      && r.items == items
      && |r.pages| == |items| / PAGE
      && (forall i :: 0 <= i < |r.pages| ==>
            && r.pages[i].page == i
            && r.pages[i].start == i * PAGE
            && r.pages[i].end == (i + 1) * PAGE
            && r.pages[i].items == items[i * PAGE..(i + 1) * PAGE])
  {
    var r := Paginate(items);
    forall i | 0 <= i < |r.pages|
      ensures r.pages[i].end == (i + 1) * PAGE && r.pages[i].items == items[i * PAGE..(i + 1) * PAGE]
    {
      assert r.pages[i] == MakePage(items, i);
      assert (i + 1) * PAGE <= (|items| / PAGE) * PAGE <= |items|;
    }
  }

  /**
   * As written, the pages show exactly the items before the last
   * `len(items) % PAGE`: a trailing partial page is on no page.
   */
  lemma PaginateShowsWholePages<T>(items: seq<T>)
    ensures Shown(Paginate(items).pages) == items[..|items| / PAGE * PAGE]
    ensures |items| - |items| / PAGE * PAGE == |items| % PAGE
  {
    var n := |items| / PAGE;
    assert n == 0 || (n - 1) * PAGE <= |items|;
    ShownPages(items, n);
    assert Min(n * PAGE, |items|) == n * PAGE;
  }

  /** Fifteen records: records 11 to 15 are on no page. */
  lemma PaginateDropsTail()
    ensures var items := seq(15, k => k);
      && |Paginate(items).pages| == 1
      && Shown(Paginate(items).pages) == items[..10]
      && 14 !in Shown(Paginate(items).pages)
  {
    var items := seq(15, k => k);
    PaginateShowsWholePages(items);
    assert 14 !in items[..10];
  }

  /** Five records: there is no page at all, so page 0 does not exist. */
  lemma PaginateShortListHasNoPage()
    ensures |Paginate(seq(5, k => k)).pages| == 0
  {
    var items := seq(5, k => k);
    assert |items| / PAGE == 0;
  }

  /**
   * The pagination the page clamp provides for: the count rounded up, so the
   * pages have room for every item, and the last page is not empty.
   */
  function PaginateAll<T>(items: seq<T>): (r: Pagination<T>)
    ensures r.items == items
    ensures |items| <= |r.pages| * PAGE < |items| + PAGE
  {
    Pagination(items, Pages(items, (|items| + PAGE - 1) / PAGE))
  }

  /**
   * Every item is on a page, in order; every page is non-empty; every page
   * but the last is full.
   */
  lemma PaginateAllShowsAll<T>(items: seq<T>)
    ensures Shown(PaginateAll(items).pages) == items
    ensures var ps := PaginateAll(items).pages;
      forall i :: 0 <= i < |ps| ==> 0 < |ps[i].items| && (i < |ps| - 1 ==> |ps[i].items| == PAGE)
  {
    var n := (|items| + PAGE - 1) / PAGE;
    assert n == 0 || (n - 1) * PAGE < |items|;
    assert n * PAGE >= |items|;
    ShownPages(items, n);
    assert items[..Min(n * PAGE, |items|)] == items;
    var ps := PaginateAll(items).pages;
    forall i | 0 <= i < |ps|
      ensures 0 < |ps[i].items| && (i < |ps| - 1 ==> |ps[i].items| == PAGE)
    {
      assert ps[i] == MakePage(items, i);
      assert i * PAGE < |items|;
    }
  }

  // ---------------------------------------------------------------- Counter

  /** A `Counter`: each distinct value with its count, in order of first occurrence. */
  type Counts = seq<(string, nat)>

  /** Counting one more occurrence of `d`. */
  function Bump(c: Counts, d: string): Counts {
    if |c| == 0 then [(d, 1)]
    else if c[0].0 == d then [(d, c[0].1 + 1)] + c[1..]
    else [c[0]] + Bump(c[1..], d)
  }

  /**
   * `Counter(ds)`: the occurrences counted one after the other. Each value
   * has one entry, and the counts add up to `len(ds)`.
   */
  function Tally(ds: seq<string>): (c: Counts)
    ensures DistinctKeys(c)
    ensures SumCounts(c) == |ds|
  {
    if |ds| == 0 then []
    else
      var prev := Tally(ds[..|ds| - 1]);
      BumpCounts(prev, ds[|ds| - 1]);
      Bump(prev, ds[|ds| - 1])
  }

  /** The count of `d`: zero when it was never seen. */
  function CountOf(c: Counts, d: string): nat {
    if |c| == 0 then 0 else (if c[0].0 == d then c[0].1 else 0) + CountOf(c[1..], d)
  }

  /** `sum(counter.values())`. */
  function SumCounts(c: Counts): nat {
    if |c| == 0 then 0 else c[0].1 + SumCounts(c[1..])
  }

  predicate DistinctKeys(c: Counts) {
    forall i, j :: 0 <= i < j < |c| ==> c[i].0 != c[j].0
  }

  /** Counting one occurrence adds one to `d`'s count and to the sum, and keeps the values distinct. */
  lemma {:induction false} BumpCounts(c: Counts, d: string)
    requires DistinctKeys(c)
    ensures DistinctKeys(Bump(c, d))
    ensures forall e :: CountOf(Bump(c, d), e) == CountOf(c, e) + (if e == d then 1 else 0)
    ensures SumCounts(Bump(c, d)) == SumCounts(c) + 1
  {
    if |c| > 0 && c[0].0 != d {
      var rest := Bump(c[1..], d);
      BumpCounts(c[1..], d);
      var b := Bump(c, d);
      assert b[1..] == rest;
      assert forall e :: (e in rest ==> e.0 == d || e in c[1..]) by {
        BumpKeys(c[1..], d);
      }
      forall i, j | 0 <= i < j < |b| ensures b[i].0 != b[j].0 {
        if i == 0 {
          assert b[j] == rest[j - 1];
          assert b[j] in rest;
        }
      }
    } else if |c| > 0 {
      var b := Bump(c, d);
      assert b[1..] == c[1..];
      forall i, j | 0 <= i < j < |b| ensures b[i].0 != b[j].0 {
        assert b[j] == c[j];
        if i > 0 {
          assert b[i] == c[i];
        }
      }
    }
  }

  /** Every entry of a bumped counter is an old entry or one for `d`. */
  lemma {:induction false} BumpKeys(c: Counts, d: string)
    ensures forall e :: e in Bump(c, d) ==> e.0 == d || e in c
  {
    if |c| > 0 && c[0].0 != d {
      BumpKeys(c[1..], d);
    }
  }

  /** `Counter(ds)` counts every value as often as it occurs. */
  lemma {:induction false} TallyCounts(ds: seq<string>)
    ensures forall d :: CountOf(Tally(ds), d) == Count(ds, d)
  {
    if |ds| > 0 {
      var n := |ds| - 1;
      TallyCounts(ds[..n]);
      BumpCounts(Tally(ds[..n]), ds[n]);
      CountSplit(ds, n);
      assert ds[n..] == [ds[n]];
    }
  }

  // ---------------------------------------------------------------- Language

  /** A language directory: its name, its domain counts and its record count. */
  datatype Language = Language(name: string, domains: Counts, size: nat)

  /**
   * `Language(name, domains)`: the size is the sum of the domain counts, so
   * no domain counts more records than the language holds.
   */
  function NewLanguage(name: string, domains: Counts): (l: Language)
    ensures l.name == name && l.domains == domains
    ensures forall i :: 0 <= i < |domains| ==> domains[i].1 <= l.size
  {
    CountsWithinSum(domains);
    Language(name, domains, SumCounts(domains))
  }

  /** Every count is at most the sum of the counts. */
  lemma {:induction false} CountsWithinSum(c: Counts)
    ensures forall i :: 0 <= i < |c| ==> c[i].1 <= SumCounts(c)
  {
    if |c| > 0 {
      CountsWithinSum(c[1..]);
      forall i | 0 < i < |c| ensures c[i].1 <= SumCounts(c) {
        assert c[i] == c[1..][i - 1];
      }
    }
  }

  /** The domain of every URL, in order. */
  function DomainsOf(urls: seq<string>, domain: string -> string): seq<string> {
    seq(|urls|, i requires 0 <= i < |urls| => domain(urls[i]))
  }

  /**
   * A language built from its URL file counts each URL's domain as often
   * as it occurs, and its size is the number of records.
   */
  lemma LanguageSize(name: string, urls: seq<string>, domain: string -> string)
    ensures var l := NewLanguage(name, Tally(DomainsOf(urls, domain)));
      && l.name == name
      && l.size == |urls|
      && forall d :: CountOf(l.domains, d) == Count(DomainsOf(urls, domain), d)
  {
    TallyCounts(DomainsOf(urls, domain));
  }

  // ---------------------------------------------------------------- output_index

  /** An entry of a model's directory, with the lines of its URL file. */
  datatype Entry = Entry(name: string, isDir: bool, urls: seq<string>)

  /** Only directories whose name does not start with `.` are languages. */
  predicate Listed(e: Entry) {
    e.isDir && !(|e.name| > 0 && e.name[0] == '.')
  }

  /**
   * The languages of a model, in directory order: at most one per entry,
   * each named after a listed directory.
   */
  function LanguagesOf(entries: seq<Entry>, domain: string -> string): (ls: seq<Language>)
    ensures |ls| <= |entries|
    ensures forall i :: 0 <= i < |ls| ==> exists e :: e in entries && Listed(e) && e.name == ls[i].name
  {
    if |entries| == 0 then []
    else
      var rest := LanguagesOf(entries[1..], domain);
      if Listed(entries[0]) then [NewLanguage(entries[0].name, Tally(DomainsOf(entries[0].urls, domain)))] + rest
      else rest
  }

  /** The directory entries `output_index` keeps, in directory order. */
  function Listing(entries: seq<Entry>): seq<Entry> {
    if |entries| == 0 then []
    else (if Listed(entries[0]) then [entries[0]] else []) + Listing(entries[1..])
  }

  /** The kept entries are exactly the listed directories. */
  lemma {:induction false} ListingKeeps(entries: seq<Entry>)
    ensures forall e :: e in Listing(entries) <==> e in entries && Listed(e)
  {
    if |entries| > 0 {
      ListingKeeps(entries[1..]);
      assert entries == [entries[0]] + entries[1..];
    }
  }

  /**
   * One language per kept directory, in directory order: the i-th language
   * is named after the i-th kept directory and counts the domains of its URLs.
   */
  lemma {:induction false} LanguagesOfListing(entries: seq<Entry>, domain: string -> string)
    ensures var ls := LanguagesOf(entries, domain); var ds := Listing(entries);
      && |ls| == |ds|
      && forall i :: 0 <= i < |ls| ==>
           ls[i].name == ds[i].name && ls[i].domains == Tally(DomainsOf(ds[i].urls, domain))
  {
    if |entries| > 0 {
      var ls, rest := LanguagesOf(entries, domain), LanguagesOf(entries[1..], domain);
      var ds, dr := Listing(entries), Listing(entries[1..]);
      LanguagesOfListing(entries[1..], domain);
      if Listed(entries[0]) {
        assert ls == [NewLanguage(entries[0].name, Tally(DomainsOf(entries[0].urls, domain)))] + rest;
        assert ds == [entries[0]] + dr;
        forall i | 0 <= i < |ls|
          ensures ls[i].name == ds[i].name && ls[i].domains == Tally(DomainsOf(ds[i].urls, domain))
        {
          if i > 0 {
            assert ls[i] == rest[i - 1] && ds[i] == dr[i - 1];
          }
        }
      } else {
        assert ls == rest;
        assert ds == [] + dr == dr;
      }
    }
  }

  /** The records of all listed languages. */
  function RecordCount(entries: seq<Entry>): nat {
    if |entries| == 0 then 0
    else (if Listed(entries[0]) then |entries[0].urls| else 0) + RecordCount(entries[1..])
  }

  function SumSizes(langs: seq<Language>): nat {
    if |langs| == 0 then 0 else langs[0].size + SumSizes(langs[1..])
  }

  /**
   * Places `x` after every language at least as large: where a stable sort
   * by size, largest first, puts an element that comes last.
   */
  function InsertBySize(s: seq<Language>, x: Language): (r: seq<Language>)
    ensures |r| == |s| + 1
  {
    if |s| == 0 then [x]
    else if s[0].size >= x.size then [s[0]] + InsertBySize(s[1..], x)
    else [x] + s
  }

  /**
   * `langs.sort(key=size, reverse=True)`: Python's sort is stable, also in
   * reverse. It keeps the length of the list.
   */
  function SortBySize(langs: seq<Language>): (r: seq<Language>)
    ensures |r| == |langs|
  {
    if |langs| == 0 then [] else InsertBySize(SortBySize(langs[..|langs| - 1]), langs[|langs| - 1])
  }

  predicate SortedBySize(s: seq<Language>) {
    forall i, j :: 0 <= i < j < |s| ==> s[i].size >= s[j].size
  }

  /** The languages of size `k`, in order. */
  function WithSize(s: seq<Language>, k: nat): seq<Language> {
    if |s| == 0 then [] else (if s[0].size == k then [s[0]] else []) + WithSize(s[1..], k)
  }

  /** The result of `output_index`: the record total and the ordered languages. */
  datatype Index = Index(total: nat, langs: seq<Language>)

  /**
   * `output_index`: the total counts the records of every listed directory,
   * and the list holds every language, largest first.
   */
  function OutputIndex(entries: seq<Entry>, domain: string -> string): (r: Index)
    ensures r.total == RecordCount(entries)
    ensures SortedBySize(r.langs)
    ensures multiset(r.langs) == multiset(LanguagesOf(entries, domain))
  {
    var langs := LanguagesOf(entries, domain);
    LanguagesRecords(entries, domain);
    SortBySizeSorted(langs);
    SortBySizeElements(langs);
    Index(SumSizes(langs), SortBySize(langs))
  }

  /** Inserting adds `x` and loses nothing. */
  lemma {:induction false} InsertBySizeElements(s: seq<Language>, x: Language)
    ensures multiset(InsertBySize(s, x)) == multiset(s) + multiset{x}
  {
    if |s| > 0 && s[0].size >= x.size {
      InsertBySizeElements(s[1..], x);
      assert s == [s[0]] + s[1..];
    } else if |s| > 0 {
      assert InsertBySize(s, x) == [x] + s;
    }
  }

  /** Inserting into a list sorted largest first keeps it sorted. */
  lemma {:induction false} InsertBySizeSorted(s: seq<Language>, x: Language)
    requires SortedBySize(s)
    ensures SortedBySize(InsertBySize(s, x))
  {
    if |s| > 0 && s[0].size >= x.size {
      var rest := InsertBySize(s[1..], x);
      InsertBySizeSorted(s[1..], x);
      InsertBySizeBound(s[1..], x, s[0].size);
      var r := InsertBySize(s, x);
      assert r[1..] == rest;
      forall i, j | 0 <= i < j < |r| ensures r[i].size >= r[j].size {
        if i > 0 {
          assert r[i] == rest[i - 1] && r[j] == rest[j - 1];
        } else {
          assert r[j] == rest[j - 1];
        }
      }
    }
  }

  /** Inserting keeps every size within a bound that `x` and the list keep. */
  lemma {:induction false} InsertBySizeBound(s: seq<Language>, x: Language, bound: nat)
    requires x.size <= bound && forall i :: 0 <= i < |s| ==> s[i].size <= bound
    ensures forall i :: 0 <= i < |InsertBySize(s, x)| ==> InsertBySize(s, x)[i].size <= bound
  {
    if |s| > 0 && s[0].size >= x.size {
      var rest := InsertBySize(s[1..], x);
      InsertBySizeBound(s[1..], x, bound);
      var r := InsertBySize(s, x);
      assert r[1..] == rest;
      forall i | 0 < i < |r| ensures r[i].size <= bound {
        assert r[i] == rest[i - 1];
      }
    } else if |s| > 0 {
      var r := InsertBySize(s, x);
      assert r[1..] == s;
      forall i | 0 < i < |r| ensures r[i].size <= bound {
        assert r[i] == s[i - 1];
      }
    }
  }

  lemma {:induction false} WithSizeAppend(a: seq<Language>, b: seq<Language>, k: nat)
    ensures WithSize(a + b, k) == WithSize(a, k) + WithSize(b, k)
  {
    if |a| > 0 {
      assert (a + b)[1..] == a[1..] + b;
      WithSizeAppend(a[1..], b, k);
    } else {
      assert a + b == b;
    }
  }

  lemma {:induction false} WithSizeNone(s: seq<Language>, k: nat)
    requires forall i :: 0 <= i < |s| ==> s[i].size < k
    ensures WithSize(s, k) == []
  {
    if |s| > 0 {
      WithSizeNone(s[1..], k);
    }
  }

  /** Inserting `x` keeps the languages of every size in their order, with `x` after its equals. */
  lemma {:induction false} InsertBySizeStable(s: seq<Language>, x: Language, k: nat)
    requires SortedBySize(s)
    ensures WithSize(InsertBySize(s, x), k) == WithSize(s, k) + (if x.size == k then [x] else [])
  {
    if |s| == 0 {
    } else if s[0].size >= x.size {
      var r := InsertBySize(s, x);
      assert r == [s[0]] + InsertBySize(s[1..], x);
      assert r[1..] == InsertBySize(s[1..], x);
      assert WithSize(InsertBySize(s[1..], x), k) == WithSize(s[1..], k) + (if x.size == k then [x] else []) by {
        assert SortedBySize(s[1..]) by {
          forall i, j | 0 <= i < j < |s[1..]| ensures s[1..][i].size >= s[1..][j].size {
            assert s[1..][i] == s[i + 1] && s[1..][j] == s[j + 1];
          }
        }
        InsertBySizeStable(s[1..], x, k);
      }
    } else {
      var r := [x] + s;
      assert r[1..] == s;
      if x.size == k {
        assert WithSize(s, k) == [] by {
          WithSizeNone(s, k);
        }
      }
    }
  }

  /** Sorting puts larger languages first. */
  lemma {:induction false} SortBySizeSorted(langs: seq<Language>)
    ensures SortedBySize(SortBySize(langs))
  {
    if |langs| > 0 {
      var n := |langs| - 1;
      SortBySizeSorted(langs[..n]);
      InsertBySizeSorted(SortBySize(langs[..n]), langs[n]);
    }
  }

  /** Sorting keeps every language, as often as it occurs. */
  lemma {:induction false} SortBySizeElements(langs: seq<Language>)
    ensures multiset(SortBySize(langs)) == multiset(langs)
  {
    if |langs| > 0 {
      var n := |langs| - 1;
      SortBySizeElements(langs[..n]);
      InsertBySizeElements(SortBySize(langs[..n]), langs[n]);
      assert langs == langs[..n] + [langs[n]];
    }
  }

  /** Sorting keeps languages of equal size in their original order. */
  lemma {:induction false} SortBySizeStable(langs: seq<Language>, k: nat)
    ensures WithSize(SortBySize(langs), k) == WithSize(langs, k)
  {
    if |langs| > 0 {
      var n := |langs| - 1;
      var prev := SortBySize(langs[..n]);
      assert SortBySize(langs) == InsertBySize(prev, langs[n]);
      SortBySizeStable(langs[..n], k);
      SortBySizeSorted(langs[..n]);
      InsertBySizeStable(prev, langs[n], k);
      var x := langs[n];
      assert WithSize(langs, k) == WithSize(langs[..n], k) + WithSize([x], k) by {
        WithSizeAppend(langs[..n], [x], k);
        assert langs == langs[..n] + [x];
      }
      assert WithSize([x], k) == (if x.size == k then [x] else []) by {
        assert [x][1..] == [];
      }
    }
  }

  /** The sizes of the languages add up to the records of every listed directory. */
  lemma {:induction false} LanguagesRecords(entries: seq<Entry>, domain: string -> string)
    ensures SumSizes(LanguagesOf(entries, domain)) == RecordCount(entries)
  {
    if |entries| > 0 {
      LanguagesRecords(entries[1..], domain);
      var e := entries[0];
      if Listed(e) {
        LanguageSize(e.name, e.urls, domain);
        var ls := LanguagesOf(entries, domain);
        assert ls[1..] == LanguagesOf(entries[1..], domain);
      }
    }
  }

  /** `output_index` keeps languages of equal size in directory order. */
  lemma OutputIndexStable(entries: seq<Entry>, domain: string -> string)
    ensures var r := OutputIndex(entries, domain);
      forall k :: WithSize(r.langs, k) == WithSize(LanguagesOf(entries, domain), k)
  {
    var langs := LanguagesOf(entries, domain);
    forall k ensures WithSize(SortBySize(langs), k) == WithSize(langs, k) {
      SortBySizeStable(langs, k);
    }
  }
}
