/**
 Splitting an ordered list into fixed-size parts, as Artikel.py
 `build_html_parts` and daily_aggregator.py `build_parts` do with
 `for i in range(0, n, size): xs[i:i+size]`, and the GUI's page arithmetic
 over the same slicing. Files are modelled as (name, content) pairs; the
 output directory is not part of this model.
 */
module Parts {
  import opened Common
  import opened Text

  /** A written file: its base name and its whole content. */
  datatype File = File(name: string, content: string)

  /** Python's `math.ceil(n / per)` for a non-negative count and a positive
      divisor, by repeated subtraction; `CeilBounds` says it is the ceiling. */
  function Ceil(n: nat, per: nat): (r: nat)
    requires per >= 1
    ensures r == 0 <==> n == 0
    decreases n
  {
    if n == 0 then 0
    else if n <= per then 1
    else Ceil(n - per, per) + 1
  }

  /** `Ceil(n, per)` pieces of size `per` cover `n`, and one fewer would not. */
  lemma {:induction false} CeilBounds(n: nat, per: nat)
    requires per >= 1
    ensures Ceil(n, per) * per >= n
    ensures Ceil(n, per) == 0 || (Ceil(n, per) - 1) * per < n
    decreases n
  {
    if n > per {
      CeilBounds(n - per, per);
      var q := Ceil(n - per, per);
      assert (q + 1) * per == q * per + per;
    }
  }

  lemma MulMono(a: int, b: int, c: int)
    requires a <= b && c >= 0
    ensures a * c <= b * c
  {
    assert b * c - a * c == (b - a) * c;
  }

  /** `Ceil` is the one number of size-`per` pieces that covers `n` with no piece to spare. */
  lemma CeilUnique(n: nat, per: nat, q: nat)
    requires per >= 1
    requires q * per >= n && (q == 0 || (q - 1) * per < n)
    ensures q == Ceil(n, per)
  {
    var r := Ceil(n, per);
    CeilBounds(n, per);
    if q < r {
      MulMono(q, r - 1, per);
    } else if q > r {
      MulMono(r, q - 1, per);
    }
  }

  /** The parts `xs[i:i+size]` for `i in range(0, len(xs), size)`, in order. */
  function Chunks<T>(xs: seq<T>, size: nat): seq<seq<T>>
    requires size >= 1
    decreases |xs|
  {
    if xs == [] then []
    else if |xs| <= size then [xs]
    else [xs[..size]] + Chunks(xs[size..], size)
  }

  /** Every part is non-empty and at most `size` long; all but the last are exactly `size` long. */
  lemma {:induction false} ChunkSizes<T>(xs: seq<T>, size: nat)
    requires size >= 1
    ensures var r := Chunks(xs, size);
      && (forall k :: 0 <= k < |r| ==> 1 <= |r[k]| <= size)
      && (forall k :: 0 <= k < |r| - 1 ==> |r[k]| == size)
    decreases |xs|
  {
    if |xs| > size {
      ChunkSizes(xs[size..], size);
      var r := Chunks(xs, size);
      assert forall k :: 1 <= k < |r| ==> r[k] == Chunks(xs[size..], size)[k - 1];
    }
  }

  /** Concatenating the parts gives back the whole input, in order. */
  lemma {:induction false} ChunksFlatten<T>(xs: seq<T>, size: nat)
    requires size >= 1
    ensures Flatten(Chunks(xs, size)) == xs
    decreases |xs|
  {
    if xs == [] {
    } else if |xs| <= size {
      assert Flatten([xs]) == xs + Flatten([]);
    } else {
      var rest := Chunks(xs[size..], size);
      var r := [xs[..size]] + rest;
      assert r[1..] == rest;
      ChunksFlatten(xs[size..], size);
      assert xs[..size] + xs[size..] == xs;
    }
  }

  /** There are `ceil(n / size)` parts. */
  lemma {:induction false} ChunkCount<T>(xs: seq<T>, size: nat)
    requires size >= 1
    ensures |Chunks(xs, size)| == Ceil(|xs|, size)
    decreases |xs|
  {
    if |xs| > size {
      ChunkCount(xs[size..], size);
    }
  }

  /** Where part `k` starts: `k * size`, written as repeated addition so that
      the slicing proofs stay linear. */
  function Start(k: nat, size: nat): nat {
    if k == 0 then 0 else Start(k - 1, size) + size
  }

  lemma {:induction false} StartIsProduct(k: nat, size: nat)
    ensures Start(k, size) == k * size
  {
    if k > 0 {
      StartIsProduct(k - 1, size);
      assert (k - 1) * size + size == k * size;
    }
  }

  /** Part `k` (0-based) starts at `k*size` and runs `size` elements, cut at the end of the list. */
  lemma {:induction false} ChunkLength<T>(xs: seq<T>, size: nat, k: nat)
    requires size >= 1 && k < |Chunks(xs, size)|
    ensures Start(k, size) < |xs|
    ensures |Chunks(xs, size)[k]| == Min(Start(k, size) + size, |xs|) - Start(k, size)
    decreases |xs|
  {
    if k > 0 {
      assert Chunks(xs, size)[k] == Chunks(xs[size..], size)[k - 1];
      ChunkLength(xs[size..], size, k - 1);
    }
  }

  /** Offset `j` of part `k` is element `k*size + j` of the list. */
  lemma {:induction false} ChunkAt<T>(xs: seq<T>, size: nat, k: nat, j: nat)
    requires size >= 1 && k < |Chunks(xs, size)| && j < |Chunks(xs, size)[k]|
    ensures Start(k, size) + j < |xs| && Chunks(xs, size)[k][j] == xs[Start(k, size) + j]
    decreases |xs|
  {
    if k > 0 {
      assert Chunks(xs, size)[k] == Chunks(xs[size..], size)[k - 1];
      ChunkAt(xs[size..], size, k - 1, j);
    }
  }

  /** Part `k` (0-based) is the slice `xs[k*size : k*size+size]`, cut at the end of the list. */
  lemma ChunkSlice<T>(xs: seq<T>, size: nat, k: nat)
    requires size >= 1 && k < |Chunks(xs, size)|
    ensures Start(k, size) < |xs|
    ensures Chunks(xs, size)[k] == xs[Start(k, size)..Min(Start(k, size) + size, |xs|)]
  {
    ChunkLength(xs, size, k);
    var c := Chunks(xs, size)[k];
    var lo := Start(k, size);
    forall j | 0 <= j < |c| ensures c[j] == xs[lo + j] {
      ChunkAt(xs, size, k, j);
    }
  }

  /** Element `i` lands in part `i // size`, at offset `i % size`: the part index Python computes as `i // part_size + 1`. */
  lemma ChunkOf<T>(xs: seq<T>, size: nat, i: nat)
    requires size >= 1 && i < |xs|
    ensures i / size < |Chunks(xs, size)|
    ensures i % size < |Chunks(xs, size)[i / size]|
    ensures Chunks(xs, size)[i / size][i % size] == xs[i]
  {
    ChunkCount(xs, size);
    CeilBounds(|xs|, size);
    PartIndex(i, size, Ceil(|xs|, size));
    ChunkLength(xs, size, i / size);
    ChunkAt(xs, size, i / size, i % size);
  }

  /** The arithmetic behind `ChunkOf`: position `i` is offset `i % size` from
      the start of part `i // size`, which is one of the `c` parts when `c`
      parts cover more than `i` elements. */
  lemma PartIndex(i: nat, size: nat, c: nat)
    requires size >= 1 && i < c * size
    ensures i / size < c && i % size < size
    ensures Start(i / size, size) + i % size == i
  {
    var k := i / size;
    DivMod(i, size);
    StartIsProduct(k, size);
    MulCancelLess(k, c, size);
  }

  /** The same slice with Python's bounds `xs[k*size : k*size+size]`. */
  lemma ChunkSliceProduct<T>(xs: seq<T>, size: nat, k: nat)
    requires size >= 1 && k < |Chunks(xs, size)|
    ensures k * size < |xs|
    ensures Chunks(xs, size)[k] == xs[k * size..Min(k * size + size, |xs|)]
  {
    ChunkSlice(xs, size, k);
    StartIsProduct(k, size);
  }

  /** Python's `//` and `%` on non-negative operands agree with Dafny's. */
  lemma DivMod(i: nat, size: nat)
    requires size >= 1
    ensures i == (i / size) * size + i % size && 0 <= i % size < size
  {
  }

  /** The part index of a position is never negative. */
  lemma QuotNonNeg(i: nat, size: nat)
    requires size >= 1
    ensures 0 <= i / size
  {
    DivMod(i, size);
    if i / size < 0 {
      MulMono(i / size, -1, size);
    }
  }

  lemma MulCancelLess(a: int, b: int, c: int)
    requires c >= 1 && a * c < b * c
    ensures a < b
  {
    assert (b - a) * c == b * c - a * c;
  }

  // ------------------------------------------------------------------ Artikel.py

  const ArtikelHead := "<!DOCTYPE html>\n<html lang=\"id\">\n<head><meta charset=\"utf-8\"><title>Chord Terpilih</title>\n<style>\n"
    + "body{font-family:'Segoe UI',sans-serif;background:#f7f9ff;color:#222;max-width:90%;margin:auto;padding:15px;}\n"
    + "h2{border-left:4px solid #7aa5ff;padding-left:8px;}\n"
    + ".post{margin-bottom:18px;background:white;border-radius:10px;padding:14px;box-shadow:0 3px 8px rgba(0,0,0,0.06);}\n"
    + "a.source{display:inline-block;margin-top:8px;color:#2a5dff;text-decoration:none;}\n"
    + "</style></head><body><h1>\U{1F3B8} Chord Terpilih</h1>\n"

  const HtmlTail := "</body></html>"

  /** What a link without a usable snippet renders as. */
  function Placeholder(link: string): string {
    "<div class='post'><h2>(Belum diambil)</h2><p>Link: <a href='" + link + "'>" + link + "</a></p></div>\n"
  }

  /** The text written for one link: its cached snippet when that is truthy
      (present and non-empty), else the placeholder naming the link. Either
      way something non-empty is written. */
  function LinkHtml(link: string, cache: map<string, string>): (r: string)
    ensures link in cache && cache[link] != "" ==> r == cache[link]
    ensures link !in cache || cache[link] == "" ==> r == Placeholder(link)
  {
    if link in cache && cache[link] != "" then cache[link] else Placeholder(link)
  }

  /** The placeholder names its link, so a missing snippet still leaves the link in the part;
      either way every link writes something. */
  lemma LinkHtmlShowsLink(link: string, cache: map<string, string>)
    ensures LinkHtml(link, cache) != ""
    ensures link !in cache || cache[link] == "" ==> Contains(LinkHtml(link, cache), link)
  {
    ContainsMiddle("<div class='post'><h2>(Belum diambil)</h2><p>Link: <a href='", link,
                   "'>" + link + "</a></p></div>\n");
    assert Placeholder(link) == "<div class='post'><h2>(Belum diambil)</h2><p>Link: <a href='" + link
                                + ("'>" + link + "</a></p></div>\n");
  }

  /** The texts written for a list of links, in order. */
  function Rendered(links: seq<string>, cache: map<string, string>): (r: seq<string>)
    ensures |r| == |links|
    ensures forall i :: 0 <= i < |links| ==> r[i] == LinkHtml(links[i], cache)
  {
    seq(|links|, i requires 0 <= i < |links| => LinkHtml(links[i], cache))
  }

  lemma RenderedAppend(a: seq<string>, b: seq<string>, cache: map<string, string>)
    ensures Rendered(a + b, cache) == Rendered(a, cache) + Rendered(b, cache)
  {
  }

  /** The content of one part file. */
  function PartPage(links: seq<string>, cache: map<string, string>): string {
    ArtikelHead + Concat(Rendered(links, cache)) + HtmlTail
  }

  /** Artikel.py `build_html_parts(selected_links_ordered, results_cache, part_size, prefix)`.
      A zero part size makes `range` raise (None); a negative one gives an
      empty range and no file. Otherwise there are `ceil(n / part_size)`
      files, part `k` (1-based) is named `{prefix}{k}.html` and renders the
      `k`-th part of the links (see `ChunkSlice` for which slice that is). */
  function BuildHtmlParts(links: seq<string>, cache: map<string, string>, size: int, prefix: string): (r: Option<seq<File>>)
    ensures r.None? <==> size == 0
    ensures size < 0 ==> r == Some([])
    ensures size >= 1 ==> r.Some? && |r.value| == Ceil(|links|, size) == |Chunks(links, size)|
    ensures size >= 1 ==> forall k :: 0 <= k < |r.value| ==>
              r.value[k] == File(prefix + NatToString(k + 1) + ".html", PartPage(Chunks(links, size)[k], cache))
  {
    if size == 0 then None
    else if size < 0 then Some([])
    else
      var parts := Chunks(links, size);
      ChunkCount(links, size);
      Some(seq(|parts|, k requires 0 <= k < |parts| => File(prefix + NatToString(k + 1) + ".html", PartPage(parts[k], cache))))
  }

  /** Part names `prefix + str(k) + suffix` differ for different `k`: no part overwrites another. */
  lemma NumberedNamesDistinct(prefix: string, m: nat, n: nat, suffix: string)
    requires m != n
    ensures prefix + NatToString(m) + suffix != prefix + NatToString(n) + suffix
  {
    var a := NatToString(m);
    var b := NatToString(n);
    ParseNatToString(m);
    ParseNatToString(n);
    assert a != b;
    if |a| == |b| {
      assert (prefix + a + suffix)[|prefix|..|prefix| + |a|] == a;
      assert (prefix + b + suffix)[|prefix|..|prefix| + |a|] == b;
    } else {
      assert |prefix + a + suffix| != |prefix + b + suffix|;
    }
  }

  /** The part bodies, read in part order, are the links' renderings in selection order. */
  function Bodies(parts: seq<seq<string>>, cache: map<string, string>): string
    decreases |parts|
  {
    if parts == [] then "" else Concat(Rendered(parts[0], cache)) + Bodies(parts[1..], cache)
  }

  /** Concatenating the parts gives back every link, once, in the original order. */
  lemma {:induction false} PartsKeepOrder(links: seq<string>, size: nat, cache: map<string, string>)
    requires size >= 1
    ensures Bodies(Chunks(links, size), cache) == Concat(Rendered(links, cache))
    decreases |links|
  {
    if links == [] {
    } else if |links| <= size {
      BodiesOnePart(links, size, cache);
    } else {
      BodiesFirstPart(links, size, cache);
      PartsKeepOrder(links[size..], size, cache);
      RenderedSplit(links[..size], links[size..], cache);
      assert links[..size] + links[size..] == links;
    }
  }

  /** A list that fits in one part has that part's rendering as its bodies. */
  lemma BodiesOnePart(links: seq<string>, size: nat, cache: map<string, string>)
    requires 1 <= |links| <= size
    ensures Bodies(Chunks(links, size), cache) == Concat(Rendered(links, cache))
  {
    var parts := Chunks(links, size);
    assert parts == [links];
    assert parts[1..] == [];
  }

  /** The bodies of a list longer than one part: the first part, then the bodies of the rest. */
  lemma BodiesFirstPart(links: seq<string>, size: nat, cache: map<string, string>)
    requires 1 <= size < |links|
    ensures Bodies(Chunks(links, size), cache)
              == Concat(Rendered(links[..size], cache)) + Bodies(Chunks(links[size..], size), cache)
  {
    var parts := Chunks(links, size);
    assert parts == [links[..size]] + Chunks(links[size..], size);
    assert parts[1..] == Chunks(links[size..], size);
  }

  /** Rendering two lists one after the other is rendering their concatenation. */
  lemma RenderedSplit(head: seq<string>, tail: seq<string>, cache: map<string, string>)
    ensures Concat(Rendered(head, cache)) + Concat(Rendered(tail, cache)) == Concat(Rendered(head + tail, cache))
  {
    ConcatAppend(Rendered(head, cache), Rendered(tail, cache));
    RenderedAppend(head, tail, cache);
  }

  /** Each link of part `k` has its text written into the file named for
      that part (`ChunkOf` says which part a given position falls in). */
  lemma LinkInItsPart(links: seq<string>, cache: map<string, string>, size: nat, prefix: string, k: nat, j: nat)
    requires size >= 1 && k < |Chunks(links, size)| && j < |Chunks(links, size)[k]|
    ensures var r := BuildHtmlParts(links, cache, size, prefix).value;
      && k < |r|
      && r[k].name == prefix + NatToString(k + 1) + ".html"
      && Contains(r[k].content, LinkHtml(Chunks(links, size)[k][j], cache))
  {
    var r := BuildHtmlParts(links, cache, size, prefix).value;
    var part := Chunks(links, size)[k];
    assert r[k] == File(prefix + NatToString(k + 1) + ".html", PartPage(part, cache));
    PartHasLink(part, cache, j);
  }

  /** Link `i` is written into part file `i // size + 1`. */
  lemma PartFor(links: seq<string>, cache: map<string, string>, size: nat, prefix: string, i: nat)
    requires size >= 1 && i < |links|
    ensures var r := BuildHtmlParts(links, cache, size, prefix).value;
      && 0 <= i / size < |r|
      && r[i / size].name == prefix + NatToString(i / size + 1) + ".html"
      && Contains(r[i / size].content, LinkHtml(links[i], cache))
  {
    QuotNonNeg(i, size);
    var k: nat, j: nat := i / size, i % size;
    ChunkOf(links, size, i);
    var r := BuildHtmlParts(links, cache, size, prefix).value;
    LinkInItsPart(links, cache, size, prefix, k, j);
    assert Chunks(links, size)[k][j] == links[i];
    assert Contains(r[k].content, LinkHtml(links[i], cache));
  }

  /** A part page shows the text of each of its links. */
  lemma PartHasLink(part: seq<string>, cache: map<string, string>, j: nat)
    requires j < |part|
    ensures Contains(PartPage(part, cache), LinkHtml(part[j], cache))
  {
    var rs := Rendered(part, cache);
    ConcatHas(rs, j);
    ContainsWiden(ArtikelHead, Concat(rs), HtmlTail, rs[j]);
  }

  /** An element of a list of fragments occurs in their concatenation. */
  lemma {:induction false} ConcatHas(ss: seq<string>, j: nat)
    requires j < |ss|
    ensures Contains(Concat(ss), ss[j])
    decreases j
  {
    if j == 0 {
      ContainsMiddle([], ss[0], Concat(ss[1..]));
      assert [] + ss[0] + Concat(ss[1..]) == Concat(ss);
    } else {
      ConcatHas(ss[1..], j - 1);
      ContainsWiden(ss[0], Concat(ss[1..]), [], ss[j]);
      assert ss[0] + Concat(ss[1..]) + [] == Concat(ss);
    }
  }

  // -------------------------------------------------------- daily_aggregator.py

  const DailyPartSize := 500

  const DailyHead := "<!doctype html>\n<html>\n<head>\n<meta charset=\"utf-8\">\n<title>Chord Blog</title>\n</head>\n<body>\n<h1>\U{1F3B8} Arsip Chord</h1>\n"

  /** The written output of `build_parts`: the part files in order, then index.html. */
  datatype Build = Build(parts: seq<File>, index: File)

  /** One entry of the index list. */
  function IndexEntry(name: string): string {
    "<li><a href=\"" + name + "\">" + name + "</a></li>"
  }

  function IndexEntries(parts: seq<File>): (r: seq<string>)
    ensures |r| == |parts|
    ensures forall k :: 0 <= k < |parts| ==> r[k] == IndexEntry(parts[k].name)
  {
    seq(|parts|, k requires 0 <= k < |parts| => IndexEntry(parts[k].name))
  }

  /** The content of one part file: the shared head, the snippets, the tail. */
  function DailyPage(chunk: seq<string>): string {
    DailyHead + Concat(chunk) + HtmlTail
  }

  /** The content of index.html: a list entry per part name, in part order. */
  function IndexPage(parts: seq<File>): string {
    IndexOpen + Concat(IndexEntries(parts)) + IndexClose
  }

  const IndexOpen := DailyHead + "<h2>Daftar Bagian</h2><ul>"
  const IndexClose := "</ul>" + HtmlTail

  /** daily_aggregator.py `build_parts(blog_dir, snippets)`: `part1.html` …
      `partK.html` with `K = ceil(n / PART_SIZE)`, part `k` holding the `k`-th
      slice of the snippets, and an index listing the part names in order. */
  function BuildParts(snippets: seq<string>): (r: Build)
    ensures |r.parts| == Ceil(|snippets|, DailyPartSize) == |Chunks(snippets, DailyPartSize)|
    ensures forall k :: 0 <= k < |r.parts| ==>
              r.parts[k] == File("part" + NatToString(k + 1) + ".html", DailyPage(Chunks(snippets, DailyPartSize)[k]))
    ensures r.index == File("index.html", IndexPage(r.parts))
  {
    var chunks := Chunks(snippets, DailyPartSize);
    ChunkCount(snippets, DailyPartSize);
    var parts := seq(|chunks|, k requires 0 <= k < |chunks| =>
                   File("part" + NatToString(k + 1) + ".html", DailyPage(chunks[k])));
    Build(parts, File("index.html", IndexPage(parts)))
  }

  /** Part `k` (1-based) holds `snippets[(k-1)*PART_SIZE : k*PART_SIZE]`. */
  lemma BuildPartsSlices(snippets: seq<string>, k: nat)
    requires 1 <= k <= |BuildParts(snippets).parts|
    ensures (k - 1) * DailyPartSize < |snippets|
    ensures BuildParts(snippets).parts[k - 1].content
            == DailyPage(snippets[(k - 1) * DailyPartSize..Min(k * DailyPartSize, |snippets|)])
  {
    ChunkSliceProduct(snippets, DailyPartSize, k - 1);
  }

  /** No snippets: no part file, and an index whose list is empty. */
  lemma BuildPartsEmpty()
    ensures BuildParts([]).parts == []
    ensures BuildParts([]).index.content == IndexOpen + IndexClose
  {
    assert Concat(IndexEntries([])) == "";
  }

  /** The part names are distinct and each one is listed in the index. */
  lemma BuildPartsIndexed(snippets: seq<string>)
    ensures var b := BuildParts(snippets);
      && (forall j, k :: 0 <= j < k < |b.parts| ==> b.parts[j].name != b.parts[k].name)
      && (forall k :: 0 <= k < |b.parts| ==> Contains(b.index.content, b.parts[k].name))
  {
    var b := BuildParts(snippets);
    forall j, k | 0 <= j < k < |b.parts|
      ensures b.parts[j].name != b.parts[k].name
    {
      NumberedNamesDistinct("part", j + 1, k + 1, ".html");
    }
    forall k | 0 <= k < |b.parts|
      ensures Contains(b.index.content, b.parts[k].name)
    {
      IndexLists(b.parts, k);
    }
  }

  /** index.html names every part. */
  lemma IndexLists(parts: seq<File>, k: nat)
    requires k < |parts|
    ensures Contains(IndexPage(parts), parts[k].name)
  {
    var es := IndexEntries(parts);
    ConcatHas(es, k);
    EntryNames(parts[k].name);
    ContainsIn(es[k], parts[k].name, Concat(es));
    ContainsWiden(IndexOpen, Concat(es), IndexClose, parts[k].name);
  }

  lemma EntryNames(name: string)
    ensures Contains(IndexEntry(name), name)
  {
    ContainsMiddle("<li><a href=\"", name, "\">" + name + "</a></li>");
    assert IndexEntry(name) == "<li><a href=\"" + name + ("\">" + name + "</a></li>");
  }

  /** The part bodies, read in order, are all the snippets in order. */
  lemma {:induction false} ConcatChunks(xs: seq<string>, size: nat)
    requires size >= 1
    ensures Concat(ChunkBodies(Chunks(xs, size))) == Concat(xs)
    decreases |xs|
  {
    var parts := Chunks(xs, size);
    if xs == [] {
    } else if |xs| <= size {
      assert parts == [xs];
      assert ChunkBodies(parts) == [Concat(xs)];
      assert Concat([Concat(xs)]) == Concat(xs) + Concat([]);
    } else {
      var head := xs[..size];
      var tail := xs[size..];
      ConcatChunks(tail, size);
      assert parts == [head] + Chunks(tail, size);
      assert ChunkBodies(parts) == [Concat(head)] + ChunkBodies(Chunks(tail, size));
      ConcatAppend([Concat(head)], ChunkBodies(Chunks(tail, size)));
      assert Concat([Concat(head)]) == Concat(head) + Concat([]);
      assert head + tail == xs;
      ConcatAppend(head, tail);
    }
  }

  function ChunkBodies(parts: seq<seq<string>>): (r: seq<string>)
    ensures |r| == |parts|
    ensures forall k :: 0 <= k < |parts| ==> r[k] == Concat(parts[k])
  {
    seq(|parts|, k requires 0 <= k < |parts| => Concat(parts[k]))
  }

  // ----------------------------------------------------- Artikel.py App paging

  /** `max(1, math.ceil(len(filtered) / ITEMS_PER_PAGE))`: the page count shown. */
  function TotalPages(n: nat, per: nat): (r: nat)
    requires per >= 1
    ensures r >= 1 && r >= Ceil(n, per)
    ensures n > 0 ==> r == Ceil(n, per)
    ensures n == 0 ==> r == 1
  {
    Max(1, Ceil(n, per))
  }

  /** `next_page`: advance only while below `ceil(len / ITEMS_PER_PAGE)`. */
  function NextPage(cur: int, n: nat, per: nat): (r: int)
    requires per >= 1
    ensures r == cur + 1 <==> cur < Ceil(n, per)
    ensures r == cur <==> cur >= Ceil(n, per)
  {
    if cur < Ceil(n, per) then cur + 1 else cur
  }

  /** `prev_page`: go back only while above page 1. */
  function PrevPage(cur: int): (r: int)
    ensures r == cur - 1 <==> cur > 1
    ensures r == cur <==> cur <= 1
  {
    if cur > 1 then cur - 1 else cur
  }

  /** Python's `xs[a:b]` for `0 <= a`, `0 <= b`: both bounds are cut at the
      length, and a slice whose end is not past its start is empty. */
  function Slice<T>(xs: seq<T>, a: nat, b: nat): (r: seq<T>)
    ensures |r| <= |xs|
    ensures a <= b <= |xs| ==> r == xs[a..b]
    ensures a >= |xs| ==> r == []
    ensures a <= |xs| <= b ==> r == xs[a..]
    ensures b <= a ==> r == []
  {
    var lo := Min(a, |xs|);
    var hi := Max(lo, Min(b, |xs|));
    xs[lo..hi]
  }

  /** `tampilkan_halaman`: the items shown on page `cur`. */
  function PageItems<T>(items: seq<T>, cur: nat, per: nat): seq<T>
    requires cur >= 1 && per >= 1
  {
    Slice(items, (cur - 1) * per, (cur - 1) * per + per)
  }

  /** Starting from page 1, the buttons keep the page within 1..TotalPages:
      next never passes `ceil(len / per)` and prev never goes below 1. */
  lemma PagingStaysInRange(cur: int, n: nat, per: nat)
    requires per >= 1 && 1 <= cur <= TotalPages(n, per)
    ensures 1 <= NextPage(cur, n, per) <= TotalPages(n, per)
    ensures 1 <= PrevPage(cur) <= TotalPages(n, per)
    ensures NextPage(cur, n, per) <= Max(cur, Ceil(n, per))
  {
  }

  /** Page `p` shows exactly part `p` of the list cut into `per`-sized parts,
      and a page past the last part shows nothing. */
  lemma PageIsChunk<T>(items: seq<T>, cur: nat, per: nat)
    requires cur >= 1 && per >= 1
    ensures cur <= |Chunks(items, per)| ==> PageItems(items, cur, per) == Chunks(items, per)[cur - 1]
    ensures cur > |Chunks(items, per)| ==> PageItems(items, cur, per) == []
  {
    var c := Chunks(items, per);
    ChunkCount(items, per);
    if cur <= |c| {
      ChunkSliceProduct(items, per, cur - 1);
    } else {
      CeilBounds(|items|, per);
      MulMono(Ceil(|items|, per), cur - 1, per);
    }
  }
}
