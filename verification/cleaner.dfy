/**
 tools/html_cleaner.py `clean_html`: remove every script, style, iframe, form,
 noscript, svg, canvas and input element together with everything inside it,
 then keep on every remaining element only the attributes href, src, alt and
 title. Parsing and serialising the HTML are not modelled: the cleaner works
 on the parsed tree.
 */
module Cleaner {
  import opened Common

  /** A parsed node: an element with its attributes in document order, or text. */
  datatype Node =
    | Element(name: string, attrs: seq<(string, string)>, children: seq<Node>)
    | Text(text: string)

  const Blacklist: set<string> := {"script", "style", "iframe", "form", "noscript", "svg", "canvas", "input"}

  /** `ALLOWED_ATTRS`. */
  const AllowedAttrs: set<string> := {"href", "src", "alt", "title"}

  /** An element the first loop decomposes. */
  predicate Blocked(n: Node) {
    n.Element? && n.name in Blacklist
  }

  predicate Kept(n: Node) {
    !Blocked(n)
  }

  predicate AllowedAttr(a: (string, string)) {
    a.0 in AllowedAttrs
  }

  /** The dict comprehension over `el.attrs.items()`. */
  function KeepAttrs(attrs: seq<(string, string)>): (r: seq<(string, string)>)
    ensures forall a :: a in r <==> a in attrs && a.0 in AllowedAttrs
  {
    Filter(attrs, AllowedAttr)
  }

  /** The cleaned forest: blocked nodes are dropped with their subtrees, the others are cleaned. */
  function PruneAll(ns: seq<Node>): seq<Node>
    decreases ns
  {
    if ns == [] then []
    else (if Blocked(ns[0]) then [] else [Prune(ns[0])]) + PruneAll(ns[1..])
  }

  function Prune(n: Node): Node
    decreases n
  {
    match n
    case Text(_) => n
    case Element(name, attrs, children) => Element(name, KeepAttrs(attrs), PruneAll(children))
  }

  /** `clean_html` on a parsed document (the top-level nodes of the soup). */
  function CleanHtml(doc: seq<Node>): (r: seq<Node>)
    ensures CleanForest(r)
    ensures CleanForest(doc) ==> r == doc
  {
    PruneAllClean(doc);
    if CleanForest(doc) then CleanForestFixed(doc); PruneAll(doc) else PruneAll(doc)
  }

  /** No blacklisted element anywhere, and no attribute outside the allowed set. */
  predicate CleanForest(ns: seq<Node>)
    decreases ns
  {
    forall i :: 0 <= i < |ns| ==> CleanNode(ns[i])
  }

  predicate CleanNode(n: Node)
    decreases n
  {
    match n
    case Text(_) => true
    case Element(name, attrs, children) =>
      && name !in Blacklist
      && (forall k :: 0 <= k < |attrs| ==> attrs[k].0 in AllowedAttrs)
      && CleanForest(children)
  }

  /** The output is clean. */
  lemma {:induction false} PruneAllClean(ns: seq<Node>)
    ensures CleanForest(PruneAll(ns))
    decreases ns
  {
    if ns != [] {
      PruneAllClean(ns[1..]);
      var head := if Blocked(ns[0]) then [] else [Prune(ns[0])];
      if !Blocked(ns[0]) {
        PruneClean(ns[0]);
      }
      var r := PruneAll(ns);
      assert r == head + PruneAll(ns[1..]);
      assert forall i :: |head| <= i < |r| ==> r[i] == PruneAll(ns[1..])[i - |head|];
    }
  }

  lemma {:induction false} PruneClean(n: Node)
    requires Kept(n)
    ensures CleanNode(Prune(n))
    decreases n
  {
    match n
    case Text(_) =>
    case Element(name, attrs, children) =>
      PruneAllClean(children);
      var kept := KeepAttrs(attrs);
      assert forall k :: 0 <= k < |kept| ==> kept[k] in kept;
  }

  /** A document that is already clean comes out unchanged. */
  lemma {:induction false} CleanForestFixed(ns: seq<Node>)
    requires CleanForest(ns)
    ensures PruneAll(ns) == ns
    decreases ns
  {
    if ns != [] {
      assert CleanNode(ns[0]);
      assert CleanForest(ns[1..]) by {
        assert forall i :: 0 <= i < |ns[1..]| ==> ns[1..][i] == ns[i + 1];
      }
      CleanNodeFixed(ns[0]);
      CleanForestFixed(ns[1..]);
      assert [ns[0]] + ns[1..] == ns;
    }
  }

  lemma {:induction false} CleanNodeFixed(n: Node)
    requires CleanNode(n)
    ensures Kept(n) && Prune(n) == n
    decreases n
  {
    match n
    case Text(_) =>
    case Element(name, attrs, children) =>
      CleanForestFixed(children);
      FilterAll(attrs, AllowedAttr);
  }

  /** Cleaning twice is cleaning once. */
  lemma {:induction false} CleanHtmlIdempotent(doc: seq<Node>)
    ensures CleanHtml(CleanHtml(doc)) == CleanHtml(doc)
  {
    PruneAllClean(doc);
    CleanForestFixed(PruneAll(doc));
  }

  /** The surviving nodes are the kept ones, in their original order, each cleaned in turn. */
  lemma {:induction false} PruneAllKeepsOrder(ns: seq<Node>)
    ensures var kept := Filter(ns, Kept);
      && |PruneAll(ns)| == |kept|
      && forall k :: 0 <= k < |kept| ==> PruneAll(ns)[k] == Prune(kept[k])
    decreases ns
  {
    if ns != [] {
      PruneAllKeepsOrder(ns[1..]);
      var rest := PruneAll(ns[1..]);
      var keptRest := Filter(ns[1..], Kept);
      if Kept(ns[0]) {
        assert Filter(ns, Kept) == [ns[0]] + keptRest;
        assert PruneAll(ns) == [Prune(ns[0])] + rest;
      } else {
        assert Filter(ns, Kept) == keptRest;
        assert PruneAll(ns) == rest;
      }
    }
  }

  /** Every kept attribute keeps its value, and no allowed attribute is lost. */
  lemma {:induction false} AttrsKept(n: Node)
    requires n.Element?
    ensures forall a :: a in Prune(n).attrs <==> a in n.attrs && a.0 in AllowedAttrs
    ensures Subseq(Prune(n).attrs, n.attrs)
  {
    FilterKeepsOrder(n.attrs, AllowedAttr);
  }
}
