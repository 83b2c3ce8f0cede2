/**
 * The blog catalogue: the post table and the pure queries over it
 * (published posts newest first, latest N, lookup by slug, tag filter, pagination).
 *
 * The queries take the table as a parameter (`data`); the site passes `BlogPostsData`.
 * Date parsing is the parameter `parse`: `Some(t)` for a string `Date` accepts with
 * time value `t` (milliseconds since the epoch), `None` where `getTime()` would be NaN.
 */
module BlogData {
  import opened Wrappers
  import opened Seqs
  import opened Text
  import opened Numbers

  datatype BlogPost = BlogPost(
    slug: string,
    title: string,
    date: string,
    excerpt: string,
    contentFile: string,
    tags: seq<string>,
    coverImage: Option<string>,
    readingTimeMinutes: int,
    published: bool)

  type DateParser = string -> Option<int>

  const LedgerGlassPost: BlogPost := BlogPost(
    "building-ledgerglass-privacy-first-macos-finance-app",
    "Building LedgerGlass: Why I Built a Privacy-First Finance App for macOS, How It Works, and What’s Next",
    "2025-09-01",
    "From APIs to a Mac-native, privacy-first finance app: importing bank CSVs, on-device ML categorization, a color-coded Subscriptions Calendar, and a roadmap toward bank-statement reconciliation — all offline.",
    "blogs/ledgerUI.md",
    ["macos", "swiftui", "swiftdata", "privacy", "personal-finance"],
    Some("/blog/glassUI.png"),
    8,
    true)

  const ChessBenchmarkPost: BlogPost := BlogPost(
    "llm-evals-building-a-chess-benchmark",
    "LLM Evals: Building a Chess Benchmark",
    "2025-07-10",
    "What I learned building a provider-agnostic evaluation harness that pits LLMs against Stockfish with calibrated difficulty.",
    "blogs/chessLLM.md",
    ["ai", "evals", "chess"],
    Some("/blog/chessLLM.gif"),
    7,
    true)

  const GeeGeesPost: BlogPost := BlogPost(
    "designing-resilient-apis-with-rust-and-actix",
    "GeeGees Sports Platform — One Project, Three Engines",
    "2025-05-04",
    "How I turned intramural chaos into a privacy-first stack—scraper → Rust API → Next.js hub—that makes uOttawa sports feel pro.",
    "blogs/geegeereg.md",
    ["rust", "react", "sports", "web"],
    Some("/blog/dropins.png"),
    8,
    true)

  const PhishingDetectionPost: BlogPost := BlogPost(
    "nlp-and-vision-for-phishing-detection",
    "NLP and Vision for Phishing Detection",
    "2024-10-01",
    "Combining text and visual signals to robustly detect phishing attempts in the wild.",
    "blogs/nlp-and-vision-for-phishing-detection.md",
    ["ml", "nlp", "security"],
    Some("/blog/wandb.png"),
    9,
    true)

  /** `blogPostsData`, in table order. */
  const BlogPostsData: seq<BlogPost> := [LedgerGlassPost, ChessBenchmarkPost, GeeGeesPost, PhishingDetectionPost]

  /** Slugs identify posts: no two rows share one. */
  ghost predicate DistinctSlugs(data: seq<BlogPost>) {
    forall i, j :: 0 <= i < j < |data| ==> data[i].slug != data[j].slug
  }

  lemma BlogPostsDataWellFormed()
    ensures DistinctSlugs(BlogPostsData)
    ensures forall p :: p in BlogPostsData ==> p.published
  {
    assert |BlogPostsData[0].slug| == 52 && |BlogPostsData[1].slug| == 36;
    assert |BlogPostsData[2].slug| == 44 && |BlogPostsData[3].slug| == 37;
  }

  /** `toDate(d).getTime()`: an unparseable date becomes the epoch instead of NaN. */
  function ToDate(parse: DateParser, d: string): (t: int)
    ensures parse(d).None? ==> t == 0
    ensures parse(d).Some? ==> t == parse(d).value
  {
    parse(d).GetOr(0)
  }

  /** Newest first: time values never increase along the sequence. */
  ghost predicate NewestFirst(parse: DateParser, s: seq<BlogPost>) {
    forall i, j :: 0 <= i < j < |s| ==> ToDate(parse, s[i].date) >= ToDate(parse, s[j].date)
  }

  /** Inserts `x` before the first post that is not newer than it (so earlier-input posts stay first among equals). */
  function InsertNewest(parse: DateParser, x: BlogPost, s: seq<BlogPost>): (r: seq<BlogPost>)
    ensures multiset(r) == multiset(s) + multiset{x}
  {
    if s == [] then [x]
    else if ToDate(parse, x.date) >= ToDate(parse, s[0].date) then [x] + s
    else
      assert s == [s[0]] + s[1..];
      [s[0]] + InsertNewest(parse, x, s[1..])
  }

  lemma {:induction false} InsertNewestKeepsOrder(parse: DateParser, x: BlogPost, s: seq<BlogPost>)
    requires NewestFirst(parse, s)
    ensures NewestFirst(parse, InsertNewest(parse, x, s))
    decreases |s|
  {
    if s != [] && ToDate(parse, x.date) < ToDate(parse, s[0].date) {
      var rest := InsertNewest(parse, x, s[1..]);
      InsertNewestKeepsOrder(parse, x, s[1..]);
      var r := [s[0]] + rest;
      forall j | 1 <= j < |r| ensures ToDate(parse, s[0].date) >= ToDate(parse, r[j].date) {
        assert r[j] == rest[j - 1];
        assert r[j] in multiset(rest);
        if r[j] != x {
          assert r[j] in multiset(s[1..]);
          var k :| 0 <= k < |s[1..]| && s[1..][k] == r[j];
          assert s[k + 1] == r[j];
        }
      }
      assert InsertNewest(parse, x, s) == r;
    }
  }

  /**
   * The comparator sort of `getAllPosts`: `(a, b) => toDate(b) - toDate(a)` with
   * JavaScript's stable `Array.prototype.sort`, written as insertion sort.
   */
  function SortNewestFirst(parse: DateParser, s: seq<BlogPost>): (r: seq<BlogPost>)
    ensures multiset(r) == multiset(s)
    ensures NewestFirst(parse, r)
  {
    if s == [] then []
    else
      assert s == [s[0]] + s[1..];
      InsertNewestKeepsOrder(parse, s[0], SortNewestFirst(parse, s[1..]));
      InsertNewest(parse, s[0], SortNewestFirst(parse, s[1..]))
  }

  /** The posts dated at time value `t`. */
  function DatedAt(parse: DateParser, t: int): BlogPost -> bool {
    (p: BlogPost) => ToDate(parse, p.date) == t
  }

  lemma {:induction false} InsertNewestStable(parse: DateParser, x: BlogPost, s: seq<BlogPost>, t: int)
    ensures Filter(DatedAt(parse, t), InsertNewest(parse, x, s))
         == Filter(DatedAt(parse, t), [x]) + Filter(DatedAt(parse, t), s)
    decreases |s|
  {
    var f := DatedAt(parse, t);
    var fx := Filter(f, [x]);
    assert fx == if f(x) then [x] else [] by {
      assert [x][1..] == [];
    }
    if s == [] {
      assert InsertNewest(parse, x, s) == [x];
      assert fx + Filter(f, s) == fx;
    } else if ToDate(parse, x.date) >= ToDate(parse, s[0].date) {
      FilterAppend(f, [x], s);
      assert InsertNewest(parse, x, s) == [x] + s;
    } else {
      var rest := InsertNewest(parse, x, s[1..]);
      var fs := Filter(f, s[1..]);
      InsertNewestStable(parse, x, s[1..], t);
      assert ([s[0]] + rest)[0] == s[0] && ([s[0]] + rest)[1..] == rest;
      assert InsertNewest(parse, x, s) == [s[0]] + rest;
      if f(s[0]) {
        // x is strictly older than s[0], so at most one of them has time value t
        assert fx == [];
        assert Filter(f, [s[0]] + rest) == [s[0]] + Filter(f, rest);
        assert Filter(f, s) == [s[0]] + fs;
      } else {
        assert Filter(f, [s[0]] + rest) == Filter(f, rest);
        assert Filter(f, s) == fs;
      }
    }
  }

  /** The sort is stable: among posts with the same time value, input order is kept. */
  lemma {:induction false} SortNewestFirstStable(parse: DateParser, s: seq<BlogPost>, t: int)
    ensures Filter(DatedAt(parse, t), SortNewestFirst(parse, s)) == Filter(DatedAt(parse, t), s)
    decreases |s|
  {
    if s != [] {
      SortNewestFirstStable(parse, s[1..], t);
      InsertNewestStable(parse, s[0], SortNewestFirst(parse, s[1..]), t);
      assert s == [s[0]] + s[1..];
      FilterAppend(DatedAt(parse, t), [s[0]], s[1..]);
    }
  }

  function IsPublished(p: BlogPost): bool {
    p.published
  }

  /** `getAllPosts`: exactly the published posts, each as often as in the table, newest first. */
  function GetAllPosts(data: seq<BlogPost>, parse: DateParser): (r: seq<BlogPost>)
    ensures forall p :: p in r <==> p in data && p.published
    ensures forall p :: multiset(r)[p] == if p.published then multiset(data)[p] else 0
    ensures NewestFirst(parse, r)
  {
    FilterCount(IsPublished, data);
    FilterMembers(IsPublished, data);
    SortNewestFirst(parse, Filter(IsPublished, data))
  }

  /** Published posts with equal dates come out in table order. */
  lemma GetAllPostsStable(data: seq<BlogPost>, parse: DateParser, t: int)
    ensures Filter(DatedAt(parse, t), GetAllPosts(data, parse))
         == Filter(DatedAt(parse, t), Filter(IsPublished, data))
  {
    SortNewestFirstStable(parse, Filter(IsPublished, data), t);
  }

  const DefaultLatestLimit := 3

  /** `getLatestPosts(limit = 3)`: the first `max(0, limit)` posts of `getAllPosts()`. */
  function GetLatestPosts(data: seq<BlogPost>, parse: DateParser, limit: Option<int>): (r: seq<BlogPost>)
    ensures r <= GetAllPosts(data, parse)
    ensures |r| == Min(Max(0, limit.GetOr(DefaultLatestLimit)), |GetAllPosts(data, parse)|)
    ensures limit.GetOr(DefaultLatestLimit) <= 0 ==> r == []
  {
    Slice(GetAllPosts(data, parse), 0, Max(0, limit.GetOr(DefaultLatestLimit)))
  }

  /** The index `Array.prototype.find` stops at for `p.slug === slug && p.published`, or -1. */
  function FindPublishedSlug(data: seq<BlogPost>, slug: string, k: nat): (i: int)
    requires k <= |data|
    ensures i == -1 || (k <= i < |data| && data[i].slug == slug && data[i].published)
    ensures i == -1 ==> forall j :: k <= j < |data| ==> !(data[j].slug == slug && data[j].published)
    ensures i != -1 ==> forall j :: k <= j < i ==> !(data[j].slug == slug && data[j].published)
    decreases |data| - k
  {
    if k == |data| then -1
    else if data[k].slug == slug && data[k].published then k
    else FindPublishedSlug(data, slug, k + 1)
  }

  /** `getPostBySlug`: the first row with that slug that is published; `None` exactly when there is none. */
  function GetPostBySlug(data: seq<BlogPost>, slug: string): (r: Option<BlogPost>)
    ensures r.None? <==> forall p :: p in data ==> !(p.slug == slug && p.published)
    ensures r.Some? ==> r.value.slug == slug && r.value.published
    ensures r.Some? ==> exists i :: 0 <= i < |data| && data[i] == r.value
                          && forall j :: 0 <= j < i ==> !(data[j].slug == slug && data[j].published)
  {
    var i := FindPublishedSlug(data, slug, 0);
    if i == -1 then None else Some(data[i])
  }

  /** A post found by slug is one of `getAllPosts()`. */
  lemma SlugLookupIsListed(data: seq<BlogPost>, parse: DateParser, slug: string)
    requires GetPostBySlug(data, slug).Some?
    ensures GetPostBySlug(data, slug).value in GetAllPosts(data, parse)
  {
  }

  /** With distinct slugs, every published row is found again by its own slug. */
  lemma SlugRoundTrip(data: seq<BlogPost>, k: nat)
    requires DistinctSlugs(data)
    requires k < |data| && data[k].published
    ensures GetPostBySlug(data, data[k].slug) == Some(data[k])
  {
    var i := FindPublishedSlug(data, data[k].slug, 0);
    assert i != -1;
    assert i == k;
  }

  /** `p.tags.some((t) => t.toLowerCase() === needle)`. */
  predicate HasTag(p: BlogPost, needle: string) {
    exists t :: t in p.tags && Lower(t) == needle
  }

  function TaggedWith(needle: string): BlogPost -> bool {
    (p: BlogPost) => HasTag(p, needle)
  }

  /** Filtering keeps the newest-first order. */
  lemma {:induction false} FilterNewestFirst(parse: DateParser, f: BlogPost -> bool, s: seq<BlogPost>)
    requires NewestFirst(parse, s)
    ensures NewestFirst(parse, Filter(f, s))
    decreases |s|
  {
    if s != [] {
      assert NewestFirst(parse, s[1..]);
      FilterNewestFirst(parse, f, s[1..]);
      var rest := Filter(f, s[1..]);
      FilterMembers(f, s[1..]);
      forall y | y in rest ensures ToDate(parse, s[0].date) >= ToDate(parse, y.date) {
        var j :| 0 <= j < |s[1..]| && s[1..][j] == y;
        assert s[j + 1] == y;
      }
    }
  }

  /** `getPostsByTag`: the posts of `getAllPosts()` carrying a tag equal, ignoring case, to the trimmed `tag`; order kept. */
  function GetPostsByTag(data: seq<BlogPost>, parse: DateParser, tag: string): (r: seq<BlogPost>)
    ensures IsSubseq(r, GetAllPosts(data, parse))
    ensures forall p :: p in r <==> p in data && p.published && HasTag(p, Lower(Trim(tag)))
    ensures forall p :: multiset(r)[p] == if p.published && HasTag(p, Lower(Trim(tag))) then multiset(data)[p] else 0
    ensures NewestFirst(parse, r)
  {
    var all := GetAllPosts(data, parse);
    FilterCount(TaggedWith(Lower(Trim(tag))), all);
    FilterNewestFirst(parse, TaggedWith(Lower(Trim(tag))), all);
    FilterIsSubseq(TaggedWith(Lower(Trim(tag))), all);
    FilterMembers(TaggedWith(Lower(Trim(tag))), all);
    Filter(TaggedWith(Lower(Trim(tag))), all)
  }

  /** Case and surrounding whitespace of the requested tag do not matter. */
  lemma TagLookupIgnoresCase(data: seq<BlogPost>, parse: DateParser, tag: string)
    ensures GetPostsByTag(data, parse, Lower(tag)) == GetPostsByTag(data, parse, tag)
    ensures GetPostsByTag(data, parse, Trim(tag)) == GetPostsByTag(data, parse, tag)
  {
    TrimLower(tag);
    LowerIdempotent(Trim(tag));
    TrimIdempotent(tag);
  }

  /** `Math.max(1, Math.ceil(total / size))`: enough pages for every post, and at least one. */
  function TotalPages(total: nat, size: nat): (n: nat)
    requires size >= 1
    ensures n >= 1
    ensures n * size >= total
    ensures n == 1 || (n - 1) * size < total
  {
    var q := CeilDiv(total, size);
    if q == 0 then (assert 1 * size == size; 1) else q
  }

  /** Where page `page` of `size` posts starts, for a page within `[1, totalPages]`. */
  lemma PageStartBounds(total: nat, size: nat, page: int, totalPages: nat)
    requires size >= 1 && 1 <= page <= totalPages
    requires totalPages == 1 || (totalPages - 1) * size < total
    ensures 0 <= (page - 1) * size <= total
    ensures page > 1 ==> (page - 1) * size < total
    ensures (page - 1) * size + size == page * size
    ensures page < totalPages ==> page * size < total
  {
    if page > 1 {
      MulMonotone(page - 1, totalPages - 1, size);
    }
    if page < totalPages {
      MulMonotone(page, totalPages - 1, size);
    }
  }

  lemma MulMonotone(a: nat, b: nat, c: nat)
    requires a <= b
    ensures a * c <= b * c
  {
  }

  /** The integer part of `paginatePosts`: page size, page count, clamped page and the slice bounds. */
  datatype PageWindow = PageWindow(page: int, size: int, totalPages: int, start: int, end: int)

  function Window(total: nat, pageReq: int, sizeReq: int): (w: PageWindow)
    ensures w.size == Max(1, sizeReq)
    ensures w.totalPages == TotalPages(total, w.size)
    ensures w.totalPages >= 1
    ensures w.totalPages * w.size >= total
    ensures w.totalPages == 1 || (w.totalPages - 1) * w.size < total
    ensures w.page == Min(Max(1, pageReq), w.totalPages)
    ensures w.start == (w.page - 1) * w.size && w.end == w.start + w.size && w.end == w.page * w.size
    ensures 0 <= w.start <= total
    ensures w.page > 1 ==> w.start < total
    ensures w.page < w.totalPages ==> w.end < total
  {
    var size := Max(1, sizeReq);
    var totalPages := TotalPages(total, size);
    var page := Min(Max(1, pageReq), totalPages);
    var start := (page - 1) * size;
    PageStartBounds(total, size, page, totalPages);
    PageWindow(page, size, totalPages, start, start + size)
  }

  datatype PageResult = PageResult(
    posts: seq<BlogPost>,
    page: int,
    pageSize: int,
    total: int,
    totalPages: int,
    hasPrev: bool,
    hasNext: bool)

  const DefaultPage := 1
  const DefaultPageSize := 10

  /**
   * One page of the newest-first list `all`, as `paginatePosts({ page, pageSize })` cuts it for
   * integral arguments: the requested page is clamped into `[1, totalPages]`, so every request
   * gets a real page.
   */
  function PageOf(all: seq<BlogPost>, page: Option<int>, pageSize: Option<int>): (r: PageResult)
    ensures var w := Window(|all|, page.GetOr(DefaultPage), pageSize.GetOr(DefaultPageSize));
            && r.page == w.page && r.pageSize == w.size && r.totalPages == w.totalPages
            && r.total == |all|
            && r.posts == all[w.start..Min(w.end, |all|)]
            && (r.hasPrev <==> w.page > 1)
            && (r.hasNext <==> w.page < w.totalPages)
  {
    var w := Window(|all|, page.GetOr(DefaultPage), pageSize.GetOr(DefaultPageSize));
    var posts := Slice(all, w.start, w.end);
    assert posts == all[w.start..Min(w.end, |all|)];
    PageResult(posts, w.page, w.size, |all|, w.totalPages, w.page > 1, w.page < w.totalPages)
  }

  /** A contiguous piece of a newest-first list is newest-first. */
  lemma SliceNewestFirst(parse: DateParser, s: seq<BlogPost>, lo: int, hi: int)
    requires 0 <= lo <= hi <= |s| && NewestFirst(parse, s)
    ensures NewestFirst(parse, s[lo..hi])
  {
    forall i, j | 0 <= i < j < hi - lo
      ensures ToDate(parse, s[lo..hi][i].date) >= ToDate(parse, s[lo..hi][j].date)
    {
      assert s[lo..hi][i] == s[lo + i] && s[lo..hi][j] == s[lo + j];
    }
  }

  /** `paginatePosts`: the page is cut from `getAllPosts()`, so it holds published posts only, newest first. */
  function Paginate(data: seq<BlogPost>, parse: DateParser, page: Option<int>, pageSize: Option<int>): (r: PageResult)
    ensures r == PageOf(GetAllPosts(data, parse), page, pageSize)
    ensures forall p :: p in r.posts ==> p in data && p.published
    ensures NewestFirst(parse, r.posts)
  {
    var all := GetAllPosts(data, parse);
    var r := PageOf(all, page, pageSize);
    SliceNewestFirst(parse, all, (r.page - 1) * r.pageSize, Min(r.page * r.pageSize, r.total));
    assert forall p :: p in r.posts ==> p in all;
    r
  }

  /** With any posts at all, the clamped page is never empty: out-of-range requests land on the last page. */
  lemma PageNeverEmpty(all: seq<BlogPost>, page: Option<int>, pageSize: Option<int>)
    requires all != []
    ensures PageOf(all, page, pageSize).posts != []
  {
    var w := Window(|all|, page.GetOr(DefaultPage), pageSize.GetOr(DefaultPageSize));
  }

  /** Every page before the last is full. */
  lemma EarlierPagesAreFull(all: seq<BlogPost>, page: Option<int>, pageSize: Option<int>)
    ensures var r := PageOf(all, page, pageSize);
            r.hasNext ==> |r.posts| == r.pageSize
  {
    var w := Window(|all|, page.GetOr(DefaultPage), pageSize.GetOr(DefaultPageSize));
  }

  /** The posts of pages 1..k for page size `size`. */
  function PagesUpTo(all: seq<BlogPost>, size: int, k: nat): seq<seq<BlogPost>>
  {
    if k == 0 then [] else PagesUpTo(all, size, k - 1) + [PageOf(all, Some(k), Some(size)).posts]
  }

  /** The window of an in-range page `k` runs from `(k - 1) * size` to `k * size`, cut at the end of the posts. */
  lemma WindowOfPage(total: nat, k: nat, size: int)
    requires size >= 1 && 1 <= k <= TotalPages(total, size)
    ensures var w := Window(total, k, size);
            w.start == Min((k - 1) * size, total) && Min(w.end, total) == Min(k * size, total)
  {
  }

  lemma {:induction false} PagesUpToPrefix(all: seq<BlogPost>, size: int, k: nat)
    requires size >= 1
    requires k <= TotalPages(|all|, size)
    ensures Flatten(PagesUpTo(all, size, k)) == all[..Min(k * size, |all|)]
  {
    if k == 0 {
      assert Min(0 * size, |all|) == 0;
    } else {
      PagesUpToPrefix(all, size, k - 1);
      var w := Window(|all|, k, size);
      WindowOfPage(|all|, k, size);
      var lo: nat, hi: nat := w.start, Min(w.end, |all|);
      var prev := PagesUpTo(all, size, k - 1);
      var posts := PageOf(all, Some(k), Some(size)).posts;
      assert posts == all[lo..hi];
      assert Flatten(prev) == all[..lo];
      assert PagesUpTo(all, size, k) == prev + [posts];
      FlattenSnoc(prev, posts);
      PrefixConcat(all, lo, hi);
    }
  }

  /** Pages 1..totalPages of any list, concatenated, are the list. */
  lemma PagesCoverAll(all: seq<BlogPost>, size: int)
    requires size >= 1
    ensures Flatten(PagesUpTo(all, size, PageOf(all, Some(1), Some(size)).totalPages)) == all
  {
    var n := TotalPages(|all|, size);
    assert PageOf(all, Some(1), Some(size)).totalPages == n;
    PagesUpToPrefix(all, size, n);
    MinOfCover(n, size, |all|);
    assert all[..|all|] == all;
  }

  lemma MinOfCover(n: nat, size: nat, total: nat)
    requires n * size >= total
    ensures Min(n * size, total) == total
  {
  }

  /** Pages 1..totalPages, concatenated, are exactly `getAllPosts()`: no post is lost or shown twice. */
  lemma PagesPartitionPosts(data: seq<BlogPost>, parse: DateParser, size: int)
    requires size >= 1
    ensures var all := GetAllPosts(data, parse);
            Flatten(PagesUpTo(all, size, Paginate(data, parse, Some(1), Some(size)).totalPages)) == all
  {
    PagesCoverAll(GetAllPosts(data, parse), size);
  }
}
