/**
 tools/link_collector.py `collect`: every post link of the blog's Atom feed
 (read in batches of 500) and of its homepage headings, written as a sorted
 list without duplicates. The collected set is kept as a strictly increasing
 list under Python's string order, which is what `sorted(links)` of the set
 is; `SortedUnique` shows there is only one such list.
 */
module Collector {
  import opened Common
  import opened Text

  // ------------------------------------------------------------ string order

  /** Python's `a < b` on `str`: code point by code point, a proper prefix first. */
  predicate Below(a: string, b: string)
    decreases |a|
  {
    if a == [] then b != []
    else if b == [] then false
    else if a[0] != b[0] then a[0] < b[0]
    else Below(a[1..], b[1..])
  }

  lemma {:induction false} BelowIrreflexive(a: string)
    ensures !Below(a, a)
    decreases |a|
  {
    if a != [] {
      BelowIrreflexive(a[1..]);
    }
  }

  lemma {:induction false} BelowTransitive(a: string, b: string, c: string)
    requires Below(a, b) && Below(b, c)
    ensures Below(a, c)
    decreases |a|
  {
    if a != [] && a[0] == b[0] && b[0] == c[0] {
      BelowTransitive(a[1..], b[1..], c[1..]);
    }
  }

  lemma {:induction false} BelowTotal(a: string, b: string)
    requires a != b
    ensures Below(a, b) || Below(b, a)
    decreases |a|
  {
    if a != [] && b != [] && a[0] == b[0] {
      assert a == [a[0]] + a[1..] && b == [b[0]] + b[1..];
      BelowTotal(a[1..], b[1..]);
    }
  }

  lemma BelowAsymmetric(a: string, b: string)
    requires Below(a, b)
    ensures !Below(b, a)
  {
    if Below(b, a) {
      BelowTransitive(a, b, a);
      BelowIrreflexive(a);
    }
  }

  predicate StrictlySorted(s: seq<string>) {
    forall i, j :: 0 <= i < j < |s| ==> Below(s[i], s[j])
  }

  /** Adding one string to a strictly increasing list (`set.add`, with the order kept). */
  function Insert(s: seq<string>, x: string): seq<string>
    decreases |s|
  {
    if s == [] then [x]
    else if x == s[0] then s
    else if Below(x, s[0]) then [x] + s
    else [s[0]] + Insert(s[1..], x)
  }

  lemma {:induction false} InsertMembers(s: seq<string>, x: string)
    ensures forall y :: y in Insert(s, x) <==> y in s || y == x
    decreases |s|
  {
    if s != [] && x != s[0] && !Below(x, s[0]) {
      InsertMembers(s[1..], x);
      assert s == [s[0]] + s[1..];
    }
  }

  lemma {:induction false} InsertSorted(s: seq<string>, x: string)
    requires StrictlySorted(s)
    ensures StrictlySorted(Insert(s, x))
    decreases |s|
  {
    if s == [] {
    } else if x == s[0] {
    } else if Below(x, s[0]) {
      var r := [x] + s;
      forall i, j | 0 <= i < j < |r|
        ensures Below(r[i], r[j])
      {
        if i == 0 && j > 1 {
          BelowTransitive(x, s[0], s[j - 1]);
        }
      }
    } else {
      BelowTotal(x, s[0]);
      var rest := Insert(s[1..], x);
      InsertSorted(s[1..], x);
      InsertMembers(s[1..], x);
      var r := [s[0]] + rest;
      forall j | 0 < j < |r|
        ensures Below(r[0], r[j])
      {
        assert r[j] == rest[j - 1];
        assert rest[j - 1] in s[1..] || rest[j - 1] == x;
        if rest[j - 1] in s[1..] {
          var k :| 0 <= k < |s[1..]| && s[1..][k] == rest[j - 1];
          assert s[k + 1] == rest[j - 1];
        }
      }
      assert forall i, j :: 1 <= i < j < |r| ==> r[i] == rest[i - 1] && r[j] == rest[j - 1];
    }
  }

  /** Adding a list of strings one after the other. */
  function InsertAll(s: seq<string>, xs: seq<string>): seq<string>
    decreases |xs|
  {
    if xs == [] then s else InsertAll(Insert(s, xs[0]), xs[1..])
  }

  /** Adding strings to a strictly increasing list keeps it strictly increasing,
      and its members are the old ones together with the added ones. */
  lemma {:induction false} InsertAllSorted(s: seq<string>, xs: seq<string>)
    requires StrictlySorted(s)
    ensures StrictlySorted(InsertAll(s, xs))
    ensures forall y :: y in InsertAll(s, xs) <==> y in s || y in xs
    decreases |xs|
  {
    if xs != [] {
      InsertSorted(s, xs[0]);
      InsertMembers(s, xs[0]);
      InsertAllSorted(Insert(s, xs[0]), xs[1..]);
      assert xs == [xs[0]] + xs[1..];
    }
  }

  /** The head of a strictly increasing list is below all its other members. */
  lemma HeadIsLeast(s: seq<string>, y: string)
    requires StrictlySorted(s) && s != [] && y in s
    ensures y == s[0] || Below(s[0], y)
  {
  }

  /** A set has only one strictly increasing listing, so the list kept here is `sorted(links)`. */
  lemma {:induction false} SortedUnique(a: seq<string>, b: seq<string>)
    requires StrictlySorted(a) && StrictlySorted(b)
    requires forall y :: y in a <==> y in b
    ensures a == b
    decreases |a|
  {
    if a != [] {
      assert a[0] in b;
      assert b != [] && b[0] in a;
      HeadIsLeast(b, a[0]);
      HeadIsLeast(a, b[0]);
      if Below(a[0], b[0]) {
        BelowAsymmetric(a[0], b[0]);
      }
      assert a[0] == b[0];
      forall y
        ensures y in a[1..] <==> y in b[1..]
      {
        if y in a[1..] {
          var k :| 0 <= k < |a[1..]| && a[1..][k] == y;
          assert Below(a[0], a[k + 1]);
          BelowIrreflexive(y);
          assert y in b && y != b[0];
          assert b == [b[0]] + b[1..];
        }
        if y in b[1..] {
          var k :| 0 <= k < |b[1..]| && b[1..][k] == y;
          assert Below(b[0], b[k + 1]);
          BelowIrreflexive(y);
          assert y in a && y != a[0];
          assert a == [a[0]] + a[1..];
        }
      }
      SortedUnique(a[1..], b[1..]);
      assert a == [a[0]] + a[1..] && b == [b[0]] + b[1..];
    } else {
      HasHead(b);
    }
  }

  lemma HasHead(b: seq<string>)
    ensures b == [] || b[0] in b
  {
  }

  // -------------------------------------------------------------- collecting

  /** A `<link>` of an Atom entry: its `rel` and `href` attributes. */
  datatype AtomLink = AtomLink(rel: Option<string>, href: Option<string>)

  /** One batch request: raised, or a response with its status and its
      entries (None when the body is not well-formed XML: `ET.fromstring` raises). */
  datatype AtomOutcome = AtomRaised | AtomReply(status: int, entries: Option<seq<seq<AtomLink>>>)

  /** The homepage request: raised, or the `href` of each `h2 a, h3 a` in document order. */
  datatype HomeOutcome = HomeRaised | HomeReply(hrefs: seq<Option<string>>)

  /** `if href and "/20" in href`. */
  predicate Wanted(href: Option<string>) {
    href.Some? && href.value != "" && Contains(href.value, "/20")
  }

  /** `l.attrib.get("rel") in (None, "alternate")`. */
  predicate Alternate(l: AtomLink) {
    l.rel.None? || l.rel.value == "alternate"
  }

  /** The hrefs of an entry's alternate links that pass the filter, in order. */
  function EntryHrefs(ls: seq<AtomLink>): (r: seq<string>)
    ensures forall h :: h in r <==> exists i :: 0 <= i < |ls| && Alternate(ls[i]) && Wanted(ls[i].href) && ls[i].href.value == h
    decreases |ls|
  {
    if ls == [] then []
    else
      var rest := EntryHrefs(ls[1..]);
      assert forall i :: 1 <= i < |ls| ==> ls[i] == ls[1..][i - 1];
      if Alternate(ls[0]) && Wanted(ls[0].href) then [ls[0].href.value] + rest else rest
  }

  /** The hrefs of the homepage anchors that pass the filter, in order. */
  function AnchorHrefs(hs: seq<Option<string>>): (r: seq<string>)
    ensures forall h :: h in r <==> exists i :: 0 <= i < |hs| && Wanted(hs[i]) && hs[i].value == h
    decreases |hs|
  {
    if hs == [] then []
    else
      var rest := AnchorHrefs(hs[1..]);
      assert forall i :: 1 <= i < |hs| ==> hs[i] == hs[1..][i - 1];
      if Wanted(hs[0]) then [hs[0].value] + rest else rest
  }

  /** The inner loops over one batch's entries. */
  function AddEntries(links: seq<string>, es: seq<seq<AtomLink>>): seq<string>
    decreases |es|
  {
    if es == [] then links else AddEntries(InsertAll(links, EntryHrefs(es[0])), es[1..])
  }

  /** The `while True` loop over feed batches; None when a request or the XML
      parse raises (`collect` has no handler, so the run ends there and writes
      nothing). A batch ends the loop when its status is not 200 or it has no
      entries; the response sequence ends where the server's answers end. */
  function ReadAtom(links: seq<string>, batches: seq<AtomOutcome>): Option<seq<string>>
    decreases |batches|
  {
    if batches == [] then Some(links)
    else match batches[0]
      case AtomRaised => None
      case AtomReply(status, entries) =>
        if status != 200 then Some(links)
        else if entries.None? then None
        else if entries.value == [] then Some(links)
        else ReadAtom(AddEntries(links, entries.value), batches[1..])
  }

  /** `collect()`: the list written to `data/links.json`, or None when it raised.
      The homepage is always read, whatever the feed gave, and its status is not checked. */
  function Collect(batches: seq<AtomOutcome>, home: HomeOutcome): (r: Option<seq<string>>)
    ensures r.None? <==> ReadAtom([], batches).None? || home.HomeRaised?
  {
    match ReadAtom([], batches)
    case None => None
    case Some(links) =>
      match home
      case HomeRaised => None
      case HomeReply(hrefs) => Some(InsertAll(links, AnchorHrefs(hrefs)))
  }

  /** Reference: every filtered href of every entry, in reading order, duplicates included. */
  function AllEntryHrefs(es: seq<seq<AtomLink>>): seq<string>
    decreases |es|
  {
    if es == [] then [] else EntryHrefs(es[0]) + AllEntryHrefs(es[1..])
  }

  /** Reference: the filtered hrefs of the batches the loop reads, or None when the loop raises. */
  function FeedHrefs(batches: seq<AtomOutcome>): Option<seq<string>>
    decreases |batches|
  {
    if batches == [] then Some([])
    else match batches[0]
      case AtomRaised => None
      case AtomReply(status, entries) =>
        if status != 200 then Some([])
        else if entries.None? then None
        else if entries.value == [] then Some([])
        else match FeedHrefs(batches[1..])
          case None => None
          case Some(rest) => Some(AllEntryHrefs(entries.value) + rest)
  }

  lemma {:induction false} AddEntriesSorted(links: seq<string>, es: seq<seq<AtomLink>>)
    requires StrictlySorted(links)
    ensures StrictlySorted(AddEntries(links, es))
    ensures forall y :: y in AddEntries(links, es) <==> y in links || y in AllEntryHrefs(es)
    decreases |es|
  {
    if es != [] {
      InsertAllSorted(links, EntryHrefs(es[0]));
      AddEntriesSorted(InsertAll(links, EntryHrefs(es[0])), es[1..]);
    }
  }

  lemma {:induction false} ReadAtomSorted(links: seq<string>, batches: seq<AtomOutcome>)
    requires StrictlySorted(links)
    ensures ReadAtom(links, batches).Some? <==> FeedHrefs(batches).Some?
    ensures ReadAtom(links, batches).Some? ==> StrictlySorted(ReadAtom(links, batches).value)
    ensures ReadAtom(links, batches).Some? ==>
              forall y :: y in ReadAtom(links, batches).value <==> y in links || y in FeedHrefs(batches).value
    decreases |batches|
  {
    if batches != [] && batches[0].AtomReply? {
      var b := batches[0];
      if b.status == 200 && b.entries.Some? && b.entries.value != [] {
        AddEntriesSorted(links, b.entries.value);
        ReadAtomSorted(AddEntries(links, b.entries.value), batches[1..]);
      }
    }
  }

  /** The written list is sorted without duplicates and holds exactly the
      filtered hrefs of the feed batches read and of the homepage anchors;
      it raises exactly when a feed request, a feed parse or the homepage
      request raises. */
  lemma CollectSpec(batches: seq<AtomOutcome>, home: HomeOutcome)
    ensures Collect(batches, home).None? <==> FeedHrefs(batches).None? || home.HomeRaised?
    ensures Collect(batches, home).Some? ==>
      var r := Collect(batches, home).value;
      && StrictlySorted(r)
      && forall y :: y in r <==> y in FeedHrefs(batches).value || y in AnchorHrefs(home.hrefs)
  {
    ReadAtomSorted([], batches);
    if ReadAtom([], batches).Some? && home.HomeReply? {
      InsertAllSorted(ReadAtom([], batches).value, AnchorHrefs(home.hrefs));
    }
  }

  /** Every written link passed the filter. */
  lemma CollectFiltered(batches: seq<AtomOutcome>, home: HomeOutcome, y: string)
    requires Collect(batches, home).Some? && y in Collect(batches, home).value
    ensures y != "" && Contains(y, "/20")
  {
    CollectSpec(batches, home);
    if y in FeedHrefs(batches).value {
      FeedHrefsFiltered(batches, y);
    }
  }

  lemma {:induction false} FeedHrefsFiltered(batches: seq<AtomOutcome>, y: string)
    requires FeedHrefs(batches).Some? && y in FeedHrefs(batches).value
    ensures y != "" && Contains(y, "/20")
    decreases |batches|
  {
    var b := batches[0];
    if y in AllEntryHrefs(b.entries.value) {
      EntriesFiltered(b.entries.value, y);
    } else {
      FeedHrefsFiltered(batches[1..], y);
    }
  }

  lemma {:induction false} EntriesFiltered(es: seq<seq<AtomLink>>, y: string)
    requires y in AllEntryHrefs(es)
    ensures y != "" && Contains(y, "/20")
    decreases |es|
  {
    if y !in EntryHrefs(es[0]) {
      EntriesFiltered(es[1..], y);
    }
  }
}
