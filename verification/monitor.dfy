/**
 monitor.js: fetch every target once and turn the response into a health
 score and an ordered list of warning signals. Scores are kept in integer
 tenths (10 is the script's 1.0); `fetch` is an oracle from URL to outcome.
 */
module Monitor {
  import opened Common

  /** The warning signals, in the order `check` tests them, plus the one the loop adds. */
  datatype Signal = HttpError | Redirect | NoLastModified | UnknownSize | Unreachable

  /** The string pushed onto `signals`. */
  function Label(s: Signal): string {
    match s
    case HttpError => "http_error"
    case Redirect => "redirect"
    case NoLastModified => "no_last_modified"
    case UnknownSize => "unknown_size"
    case Unreachable => "unreachable"
  }

  /** The deduction `check` makes for a signal, in tenths. */
  function Weight(s: Signal): nat {
    match s
    case HttpError => 5
    case Redirect => 1
    case NoLastModified => 1
    case UnknownSize => 2
    case Unreachable => 10
  }

  /** The four signals `check` can raise, in its order. */
  const CheckOrder: seq<Signal> := [HttpError, Redirect, NoLastModified, UnknownSize]

  /** What `fetch(url, { redirect: "follow" })` yields: a rejected promise, or
      a response with its final status, whether a redirect was followed, and
      the two headers (`headers.get` gives null for an absent header). */
  datatype Outcome =
    | Unreached
    | Reply(status: int, redirected: bool, lastModified: Option<string>, contentLength: Option<string>)

  /** `Number(headers.get("content-length") || 0) === 0`. An absent or empty
      header becomes the number 0; any other text is converted by JavaScript's
      `Number`, which `isZero` stands for. */
  predicate ZeroLength(contentLength: Option<string>, isZero: string -> bool) {
    contentLength.None? || contentLength.value == "" || isZero(contentLength.value)
  }

  /** `!lastModified`: null and the empty string are falsy. */
  predicate MissingHeader(h: Option<string>) {
    h.None? || h.value == ""
  }

  /** Whether `check` raises a signal for a response. */
  predicate Raises(s: Signal, o: Outcome, isZero: string -> bool)
    requires o.Reply?
  {
    match s
    case HttpError => o.status != 200
    case Redirect => o.redirected
    case NoLastModified => MissingHeader(o.lastModified)
    case UnknownSize => ZeroLength(o.contentLength, isZero)
    case Unreachable => false
  }

  /** The `signals` array `check` builds: the tests of lines 17-35 in order. */
  function Signals(o: Outcome, isZero: string -> bool): (r: seq<Signal>)
    requires o.Reply?
    ensures forall s :: s in r <==> s in CheckOrder && Raises(s, o, isZero)
  {
    (if o.status != 200 then [HttpError] else [])
    + (if o.redirected then [Redirect] else [])
    + (if MissingHeader(o.lastModified) then [NoLastModified] else [])
    + (if ZeroLength(o.contentLength, isZero) then [UnknownSize] else [])
  }

  function TotalWeight(ss: seq<Signal>): nat {
    if ss == [] then 0 else Weight(ss[0]) + TotalWeight(ss[1..])
  }

  /** `Math.max(score, 0)` after the deductions, in tenths. */
  function Score(signals: seq<Signal>): int {
    Max(10 - TotalWeight(signals), 0)
  }

  /** The JSON `status` field: the HTTP status, or the string "error". */
  datatype Status = Code(code: int) | Error

  datatype Target = Target(name: string, url: string)

  datatype Report = Report(name: string, url: string, status: Status, score: int, signals: seq<Signal>)

  /** One iteration of the loop: `{ name, ...check(url) }`, or the `catch` record. */
  function ReportFor(t: Target, o: Outcome, isZero: string -> bool): (r: Report)
    ensures r.name == t.name && r.url == t.url
    ensures o.Unreached? <==> r.status == Error
    ensures o.Unreached? ==> r.score == 0 && r.signals == [Unreachable]
    ensures o.Reply? ==> r.status == Code(o.status) && r.signals == Signals(o, isZero) && r.score == Score(r.signals)
  {
    match o
    case Unreached => Report(t.name, t.url, Error, 0, [Unreachable])
    case Reply(status, _, _, _) =>
      var signals := Signals(o, isZero);
      Report(t.name, t.url, Code(status), Score(signals), signals)
  }

  /** The `for (const t of targets)` loop: one `results.push` per target, in order. */
  function Results(acc: seq<Report>, targets: seq<Target>, fetch: string -> Outcome, isZero: string -> bool): seq<Report>
    decreases |targets|
  {
    if targets == [] then acc
    else Results(acc + [ReportFor(targets[0], fetch(targets[0].url), isZero)], targets[1..], fetch, isZero)
  }

  /** The `results` array written to health.json. */
  function Health(targets: seq<Target>, fetch: string -> Outcome, isZero: string -> bool): (r: seq<Report>)
    ensures |r| == |targets|
    ensures forall i :: 0 <= i < |targets| ==> r[i] == ReportFor(targets[i], fetch(targets[i].url), isZero)
  {
    ResultsFromEmpty(targets, fetch, isZero);
    Results([], targets, fetch, isZero)
  }

  /** The loop keeps what was pushed before and pushes one report per target, in target order. */
  lemma {:induction false} ResultsInOrder(acc: seq<Report>, targets: seq<Target>, fetch: string -> Outcome, isZero: string -> bool)
    ensures var r := Results(acc, targets, fetch, isZero);
      && |r| == |acc| + |targets|
      && r[..|acc|] == acc
      && forall i :: 0 <= i < |targets| ==> r[|acc| + i] == ReportFor(targets[i], fetch(targets[i].url), isZero)
    decreases |targets|
  {
    if targets != [] {
      var acc' := acc + [ReportFor(targets[0], fetch(targets[0].url), isZero)];
      ResultsInOrder(acc', targets[1..], fetch, isZero);
      var r := Results(acc, targets, fetch, isZero);
      assert r == Results(acc', targets[1..], fetch, isZero);
      assert r[..|acc|] == r[..|acc'|][..|acc|];
      forall i | 1 <= i < |targets|
        ensures r[|acc| + i] == ReportFor(targets[i], fetch(targets[i].url), isZero)
      {
        assert targets[i] == targets[1..][i - 1];
        assert |acc| + i == |acc'| + (i - 1);
      }
    }
  }

  /** Run from an empty array, the loop's i-th report is for the i-th target. */
  lemma ResultsFromEmpty(targets: seq<Target>, fetch: string -> Outcome, isZero: string -> bool)
    ensures var r := Results([], targets, fetch, isZero);
      && |r| == |targets|
      && forall i :: 0 <= i < |targets| ==> r[i] == ReportFor(targets[i], fetch(targets[i].url), isZero)
  {
    var none: seq<Report> := [];
    var r := Results(none, targets, fetch, isZero);
    ResultsInOrder(none, targets, fetch, isZero);
    forall i | 0 <= i < |targets|
      ensures r[i] == ReportFor(targets[i], fetch(targets[i].url), isZero)
    {
      assert r[|none| + i] == ReportFor(targets[i], fetch(targets[i].url), isZero);
    }
  }

  /** A report's score lies in 0..10 tenths; it is 0 exactly for an
      unreachable target and 10 exactly when no signal was raised; no signal
      is listed twice. */
  lemma ReportScore(t: Target, o: Outcome, isZero: string -> bool)
    ensures var r := ReportFor(t, o, isZero);
      && 0 <= r.score <= 10
      && (r.score == 0 <==> o.Unreached?)
      && (r.score == 10 <==> r.signals == [])
      && NoDup(r.signals)
  {
    if o.Reply? {
      ScoreRange(o, isZero);
      SignalsOrdered(o, isZero);
    }
  }

  /** The signals come in `check`'s fixed order, each at most once. */
  lemma {:induction false} SignalsOrdered(o: Outcome, isZero: string -> bool)
    requires o.Reply?
    ensures Subseq(Signals(o, isZero), CheckOrder)
    ensures NoDup(Signals(o, isZero))
  {
    var a := if o.status != 200 then [HttpError] else [];
    var b := if o.redirected then [Redirect] else [];
    var c := if MissingHeader(o.lastModified) then [NoLastModified] else [];
    var d := if ZeroLength(o.contentLength, isZero) then [UnknownSize] else [];
    assert Signals(o, isZero) == a + b + c + d;
    OrderedPicks(a, b, c, d);
    SubseqNoDup(Signals(o, isZero), CheckOrder);
  }

  /** Optional picks of the four signals, concatenated in `CheckOrder`. */
  lemma {:induction false} OrderedPicks(a: seq<Signal>, b: seq<Signal>, c: seq<Signal>, d: seq<Signal>)
    requires a == [] || a == [HttpError]
    requires b == [] || b == [Redirect]
    requires c == [] || c == [NoLastModified]
    requires d == [] || d == [UnknownSize]
    ensures Subseq(a + b + c + d, CheckOrder)
  {
    var tail1, tail2, tail3 := CheckOrder[1..], CheckOrder[2..], CheckOrder[3..];
    assert Subseq(d, tail3) by {
      if d != [] {
        assert d[1..] == [] && tail3[0] == UnknownSize;
      }
    }
    SubseqPrepend(c, d, tail2, NoLastModified);
    SubseqPrepend(b, c + d, tail1, Redirect);
    SubseqPrepend(a, b + (c + d), CheckOrder, HttpError);
    assert a + b + c + d == a + (b + (c + d));
  }

  /** Putting an optional `x` in front, where `x` heads `ys` and does not occur in `xs`. */
  lemma SubseqPrepend(h: seq<Signal>, xs: seq<Signal>, ys: seq<Signal>, x: Signal)
    requires ys != [] && ys[0] == x
    requires h == [] || h == [x]
    requires Subseq(xs, ys[1..])
    requires x !in xs
    ensures Subseq(h + xs, ys)
  {
    if h == [] {
      assert h + xs == xs;
      if xs != [] {
        assert xs[0] != ys[0];
      }
    } else {
      assert (h + xs)[0] == ys[0] && (h + xs)[1..] == xs;
    }
  }

  /** A score lies between 0.1 and 1.0: the deductions can never reach 1.0, so
      the clamp at 0 never applies. It is 1.0 exactly when there is no signal. */
  lemma {:induction false} ScoreRange(o: Outcome, isZero: string -> bool)
    requires o.Reply?
    ensures var ss := Signals(o, isZero);
      && 1 <= Score(ss) <= 10
      && (Score(ss) == 10 <==> ss == [])
      && Score(ss) == 10 - TotalWeight(ss)
  {
    var ss := Signals(o, isZero);
    SignalsOrdered(o, isZero);
    SubseqWeight(ss, CheckOrder);
    assert TotalWeight(CheckOrder) == 9;
    if ss != [] {
      assert Weight(ss[0]) >= 1;
    }
  }

  /** A subsequence never weighs more than the sequence it was taken from. */
  lemma {:induction false} SubseqWeight(xs: seq<Signal>, ys: seq<Signal>)
    requires Subseq(xs, ys)
    ensures TotalWeight(xs) <= TotalWeight(ys)
    decreases |ys|
  {
    if xs != [] {
      if xs[0] == ys[0] {
        SubseqWeight(xs[1..], ys[1..]);
      } else {
        SubseqWeight(xs, ys[1..]);
      }
    }
  }
}
