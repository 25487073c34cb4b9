/**
 artikel.py `slugify`: every maximal run of characters other than ASCII
 letters and digits becomes one '-', then leading and trailing '-' are
 stripped. The result names a folder directly under the output directory.
 */
module Slug {
  import opened Common
  import opened Text

  /** The class `[a-zA-Z0-9]`. */
  predicate IsAlnum(c: char) {
    ('a' <= c <= 'z') || ('A' <= c <= 'Z') || ('0' <= c <= '9')
  }

  predicate IsDash(c: char) { c == '-' }

  predicate SlugChars(s: string) {
    forall k :: 0 <= k < |s| ==> IsAlnum(s[k]) || s[k] == '-'
  }

  predicate NoDoubleDash(s: string) {
    forall k :: 0 <= k < |s| - 1 ==> !(s[k] == '-' && s[k + 1] == '-')
  }

  /** The ASCII letters and digits of `s`, in order. */
  function Alnums(s: string): string
    decreases |s|
  {
    if s == [] then "" else (if IsAlnum(s[0]) then [s[0]] else "") + Alnums(s[1..])
  }

  lemma {:induction false} AlnumsAppend(a: string, b: string)
    ensures Alnums(a + b) == Alnums(a) + Alnums(b)
    decreases |a|
  {
    if a == [] {
      assert a + b == b;
    } else {
      var ab := a + b;
      assert ab[0] == a[0] && ab[1..] == a[1..] + b;
      var h := if IsAlnum(a[0]) then [a[0]] else "";
      assert Alnums(ab) == h + Alnums(a[1..] + b);
      AlnumsAppend(a[1..], b);
      assert Alnums(a) == h + Alnums(a[1..]);
      assert h + (Alnums(a[1..]) + Alnums(b)) == (h + Alnums(a[1..])) + Alnums(b);
    }
  }

  /** `re.sub(r"[^a-zA-Z0-9]+", "-", s)`, scanning left to right; `inRun`
      says the previous character belonged to a run already replaced. */
  function Dashes(s: string, inRun: bool): string
    decreases |s|
  {
    if s == [] then ""
    else if IsAlnum(s[0]) then [s[0]] + Dashes(s[1..], false)
    else if inRun then Dashes(s[1..], true)
    else "-" + Dashes(s[1..], true)
  }

  /** `slugify(text)`. */
  function Slugify(s: string): string {
    Trim(Dashes(s, false), IsDash)
  }

  /** The substitution leaves only letters, digits and single dashes, and
      after a replaced run the next output character is not a dash. */
  lemma {:induction false} DashesShape(s: string, inRun: bool)
    ensures var r := Dashes(s, inRun);
      && SlugChars(r)
      && NoDoubleDash(r)
      && (inRun && r != [] ==> r[0] != '-')
    decreases |s|
  {
    if s != [] {
      var rest := Dashes(s[1..], !IsAlnum(s[0]));
      DashesShape(s[1..], !IsAlnum(s[0]));
      var r := Dashes(s, inRun);
      if IsAlnum(s[0]) || !inRun {
        assert forall k :: 1 <= k < |r| ==> r[k] == rest[k - 1];
      }
    }
  }

  /** The substitution keeps the letters and digits, in order. */
  lemma {:induction false} DashesKeepsAlnum(s: string, inRun: bool)
    ensures Alnums(Dashes(s, inRun)) == Alnums(s)
    decreases |s|
  {
    if s != [] {
      DashesKeepsAlnum(s[1..], !IsAlnum(s[0]));
      var rest := Dashes(s[1..], !IsAlnum(s[0]));
      if IsAlnum(s[0]) || !inRun {
        var c := if IsAlnum(s[0]) then s[0] else '-';
        assert Dashes(s, inRun) == [c] + rest;
        AlnumsAppend([c], rest);
      }
    }
  }

  /** A slice keeps the character class and the absence of "--". */
  lemma {:induction false} SliceShape(s: string, a: nat, b: nat)
    requires a <= b <= |s| && SlugChars(s) && NoDoubleDash(s)
    ensures SlugChars(s[a..b]) && NoDoubleDash(s[a..b])
  {
    assert forall k :: 0 <= k < b - a ==> s[a..b][k] == s[a + k];
  }

  /** The slug holds only ASCII letters, digits and '-', never two dashes in
      a row, and neither starts nor ends with a dash. */
  lemma {:induction false} SlugifyShape(s: string)
    ensures var r := Slugify(s);
      && SlugChars(r)
      && NoDoubleDash(r)
      && (r != [] ==> r[0] != '-' && r[|r| - 1] != '-')
  {
    var d := Dashes(s, false);
    DashesShape(s, false);
    var a := SkipFrom(d, IsDash, 0);
    SliceShape(d, a, SkipBack(d, IsDash, a, |d|));
  }

  /** Filtering out a run of dashes keeps nothing. */
  lemma {:induction false} DashesAlnums(s: string)
    requires forall k :: 0 <= k < |s| ==> s[k] == '-'
    ensures Alnums(s) == []
    decreases |s|
  {
    if s != [] {
      DashesAlnums(s[1..]);
    }
  }

  /** The slug keeps the input's ASCII letters and digits, in order. */
  lemma {:induction false} SlugifyKeepsAlnum(s: string)
    ensures Alnums(Slugify(s)) == Alnums(s)
  {
    var d := Dashes(s, false);
    DashesKeepsAlnum(s, false);
    var a := SkipFrom(d, IsDash, 0);
    var b := SkipBack(d, IsDash, a, |d|);
    TrimmedAlnums(d, a, b);
  }

  /** Cutting dashes off both ends keeps the letters and digits. */
  lemma {:induction false} TrimmedAlnums(d: string, a: nat, b: nat)
    requires a <= b <= |d|
    requires forall k :: 0 <= k < a ==> d[k] == '-'
    requires forall k :: b <= k < |d| ==> d[k] == '-'
    ensures Alnums(d[a..b]) == Alnums(d)
  {
    var left, mid, right := d[..a], d[a..b], d[b..];
    assert d == left + mid + right;
    assert forall k :: 0 <= k < |left| ==> left[k] == d[k];
    assert forall k :: 0 <= k < |right| ==> right[k] == d[b + k];
    DashesAlnums(left);
    DashesAlnums(right);
    AlnumsAppend(left + mid, right);
    AlnumsAppend(left, mid);
  }

  /** On letters, digits and single dashes the substitution changes nothing
      (a dash right after a replaced run cannot occur). */
  lemma {:induction false} DashesFixed(t: string, inRun: bool)
    requires SlugChars(t) && NoDoubleDash(t)
    requires inRun ==> t == [] || t[0] != '-'
    ensures Dashes(t, inRun) == t
    decreases |t|
  {
    if t != [] {
      assert forall k :: 0 <= k < |t[1..]| ==> t[1..][k] == t[k + 1];
      DashesFixed(t[1..], !IsAlnum(t[0]));
      assert t == [t[0]] + t[1..];
    }
  }

  /** What `slugify` produces: letters, digits and single inner dashes. */
  predicate IsSlug(t: string) {
    SlugChars(t) && NoDoubleDash(t) && (t != [] ==> t[0] != '-' && t[|t| - 1] != '-')
  }

  /** A slug is its own slug. */
  lemma {:induction false} SlugFixed(t: string)
    requires IsSlug(t)
    ensures Slugify(t) == t
  {
    DashesFixed(t, false);
    if t != [] {
      assert SkipFrom(t, IsDash, 0) == 0;
      assert SkipBack(t, IsDash, 0, |t|) == |t|;
    }
  }

  /** Slugifying a slug changes nothing. */
  lemma {:induction false} SlugifyIdempotent(s: string)
    ensures Slugify(Slugify(s)) == Slugify(s)
  {
    SlugifyShape(s);
    SlugFixed(Slugify(s));
  }
}
