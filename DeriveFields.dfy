/**
 * The DeriveHandle and DeriveDomain hooks (assets/js/app.ts): a source input
 * whose value is turned into a handle slug or an email domain and copied into
 * a target input, until the user edits the target by hand.
 */
module DeriveFields {
  import opened Wrappers
  import opened JsStrings

  // ---------------------------------------------------------------------------
  // The handle slug: lower-case, runs of other characters become one dash,
  // dashes trimmed from both ends.

  predicate IsLowerAlnum(c: char) {
    'a' <= c <= 'z' || '0' <= c <= '9'
  }

  /** ASCII lower-casing of one character. */
  function LowerChar(c: char): char {
    if 'A' <= c <= 'Z' then (c as int + 32) as char else c
  }

  /** `toLowerCase()`, restricted to ASCII letters. */
  function ToLower(s: string): string {
    if s == [] then [] else [LowerChar(s[0])] + ToLower(s[1..])
  }

  /** Drops the run of characters outside `[a-z0-9]` at the start of `s`. */
  function DropSeparators(s: string): (r: string)
    ensures |r| <= |s|
    ensures r == [] || IsLowerAlnum(r[0])
  {
    if s == [] || IsLowerAlnum(s[0]) then s else DropSeparators(s[1..])
  }

  /** `replace(/[^a-z0-9]+/g, "-")`: each maximal run of other characters becomes one dash. */
  function Collapse(s: string): string
    decreases |s|
  {
    if s == [] then []
    else if IsLowerAlnum(s[0]) then [s[0]] + Collapse(s[1..])
    else "-" + Collapse(DropSeparators(s[1..]))
  }

  /** The leading dashes removed. */
  function TrimStart(s: string): (r: string)
    ensures r == [] || r[0] != '-'
  {
    if s != [] && s[0] == '-' then TrimStart(s[1..]) else s
  }

  /** Only dashes. */
  predicate AllDashes(d: string) {
    forall i :: 0 <= i < |d| ==> d[i] == '-'
  }

  /** `^-+` removes exactly the leading run of dashes and keeps everything after it. */
  lemma {:induction false} TrimStartRun(d: string, t: string)
    requires AllDashes(d) && (t == [] || t[0] != '-')
    ensures TrimStart(d + t) == t
  {
    if d == [] {
      assert d + t == t;
    } else {
      assert (d + t)[1..] == d[1..] + t;
      TrimStartRun(d[1..], t);
    }
  }

  /** The trailing dashes removed. */
  function TrimEnd(s: string): (r: string)
    ensures r == [] || r[|r| - 1] != '-'
  {
    if s != [] && s[|s| - 1] == '-' then TrimEnd(s[..|s| - 1]) else s
  }

  /** `-+$` removes exactly the trailing run of dashes and keeps everything before it. */
  lemma {:induction false} TrimEndRun(t: string, d: string)
    requires AllDashes(d) && (t == [] || t[|t| - 1] != '-')
    ensures TrimEnd(t + d) == t
  {
    if d == [] {
      assert t + d == t;
    } else {
      var init := d[..|d| - 1];
      assert (t + d)[..|t + d| - 1] == t + init;
      TrimEndRun(t, init);
    }
  }

  /** `replace(/^-+|-+$/g, "")`. */
  function TrimDashes(s: string): string {
    TrimEnd(TrimStart(s))
  }

  /** The handle derived from a name. */
  function Slug(s: string): string {
    TrimDashes(Collapse(ToLower(s)))
  }

  /** Only `a-z`, `0-9` and `-`. */
  predicate SlugAlphabet(t: string) {
    forall i :: 0 <= i < |t| ==> IsLowerAlnum(t[i]) || t[i] == '-'
  }

  predicate NoDoubleDash(t: string) {
    forall i :: 0 <= i < |t| - 1 ==> !(t[i] == '-' && t[i + 1] == '-')
  }

  /** A well-formed handle: slug alphabet, no dash at either end, never two dashes in a row. */
  predicate IsSlug(t: string) {
    SlugAlphabet(t) && NoDoubleDash(t) && (t == [] || (t[0] != '-' && t[|t| - 1] != '-'))
  }

  /** The `[a-z0-9]` characters of `s`, in order. */
  function Alnums(s: string): string {
    if s == [] then [] else (if IsLowerAlnum(s[0]) then [s[0]] else []) + Alnums(s[1..])
  }

  lemma {:induction false} AlnumsAppend(a: string, b: string)
    ensures Alnums(a + b) == Alnums(a) + Alnums(b)
  {
    if a == [] {
      assert a + b == b;
    } else {
      assert (a + b)[1..] == a[1..] + b;
      AlnumsAppend(a[1..], b);
    }
  }

  lemma {:induction false} DropSeparatorsKeepsAlnums(s: string)
    ensures Alnums(DropSeparators(s)) == Alnums(s)
  {
    if s != [] && !IsLowerAlnum(s[0]) {
      DropSeparatorsKeepsAlnums(s[1..]);
    }
  }

  /** Collapsing separator runs keeps every `[a-z0-9]` character, in order. */
  lemma {:induction false} CollapseKeepsAlnums(s: string)
    ensures Alnums(Collapse(s)) == Alnums(s)
    decreases |s|
  {
    if s != [] {
      if IsLowerAlnum(s[0]) {
        CollapseKeepsAlnums(s[1..]);
        AlnumsAppend([s[0]], Collapse(s[1..]));
      } else {
        var rest := DropSeparators(s[1..]);
        CollapseKeepsAlnums(rest);
        DropSeparatorsKeepsAlnums(s[1..]);
        AlnumsAppend("-", Collapse(rest));
      }
    }
  }

  lemma {:induction false} TrimStartKeepsAlnums(s: string)
    ensures Alnums(TrimStart(s)) == Alnums(s)
  {
    if s != [] && s[0] == '-' {
      TrimStartKeepsAlnums(s[1..]);
    }
  }

  lemma {:induction false} TrimEndKeepsAlnums(s: string)
    ensures Alnums(TrimEnd(s)) == Alnums(s)
  {
    if s != [] && s[|s| - 1] == '-' {
      var init := s[..|s| - 1];
      TrimEndKeepsAlnums(init);
      assert s == init + "-";
      AlnumsAppend(init, "-");
    }
  }

  /** The slug keeps the lower-cased input's letters and digits, in order. */
  lemma SlugKeepsAlnums(s: string)
    ensures Alnums(Slug(s)) == Alnums(ToLower(s))
  {
    var c := Collapse(ToLower(s));
    CollapseKeepsAlnums(ToLower(s));
    TrimStartKeepsAlnums(c);
    TrimEndKeepsAlnums(TrimStart(c));
  }

  /** Only `[a-z0-9]` characters. */
  predicate AllLowerAlnum(t: string) {
    forall i :: 0 <= i < |t| ==> IsLowerAlnum(t[i])
  }

  /** No `[a-z0-9]` character. */
  predicate NoLowerAlnum(t: string) {
    forall i :: 0 <= i < |t| ==> !IsLowerAlnum(t[i])
  }

  /** Skipping separators stops exactly where the next word starts. */
  lemma {:induction false} DropSeparatorsRun(r: string, q: string)
    requires NoLowerAlnum(r) && (q == [] || IsLowerAlnum(q[0]))
    ensures DropSeparators(r + q) == q
  {
    if r == [] {
      assert r + q == q;
    } else {
      assert (r + q)[1..] == r[1..] + q;
      DropSeparatorsRun(r[1..], q);
    }
  }

  /**
   * A word followed by a maximal run of other characters: the word is kept
   * and the whole run becomes a single dash before the rest.
   */
  lemma {:induction false} CollapseRun(p: string, r: string, q: string)
    requires AllLowerAlnum(p) && r != [] && NoLowerAlnum(r)
    requires q == [] || IsLowerAlnum(q[0])
    ensures Collapse(p + r + q) == p + "-" + Collapse(q)
    decreases |p|
  {
    if p == [] {
      assert p + r + q == r + q;
      assert (r + q)[1..] == r[1..] + q;
      DropSeparatorsRun(r[1..], q);
    } else {
      assert (p + r + q)[1..] == p[1..] + r + q;
      CollapseRun(p[1..], r, q);
      assert [p[0]] + (p[1..] + "-" + Collapse(q)) == p + "-" + Collapse(q);
    }
  }

  /** What collapsing produces: slug alphabet, no two dashes in a row. */
  lemma {:induction false} CollapseShape(s: string)
    ensures SlugAlphabet(Collapse(s)) && NoDoubleDash(Collapse(s))
    ensures Collapse(s) == [] || (IsLowerAlnum(Collapse(s)[0]) <==> IsLowerAlnum(s[0]))
    decreases |s|
  {
    if s != [] {
      if IsLowerAlnum(s[0]) {
        CollapseShape(s[1..]);
      } else {
        var rest := DropSeparators(s[1..]);
        CollapseShape(rest);
        assert Collapse(rest) == [] || IsLowerAlnum(Collapse(rest)[0]);
      }
    }
  }

  lemma {:induction false} TrimStartShape(s: string)
    requires SlugAlphabet(s) && NoDoubleDash(s)
    ensures SlugAlphabet(TrimStart(s)) && NoDoubleDash(TrimStart(s))
  {
    if s != [] && s[0] == '-' {
      TrimStartShape(s[1..]);
    }
  }

  lemma {:induction false} TrimEndShape(s: string)
    requires SlugAlphabet(s) && NoDoubleDash(s) && (s == [] || s[0] != '-')
    ensures IsSlug(TrimEnd(s))
  {
    if s != [] && s[|s| - 1] == '-' {
      TrimEndShape(s[..|s| - 1]);
    }
  }

  /** Every slug is well formed. */
  lemma SlugIsWellFormed(s: string)
    ensures IsSlug(Slug(s))
  {
    var c := Collapse(ToLower(s));
    CollapseShape(ToLower(s));
    TrimStartShape(c);
    TrimEndShape(TrimStart(c));
  }

  lemma {:induction false} LowerFixesSlugAlphabet(t: string)
    requires SlugAlphabet(t)
    ensures ToLower(t) == t
  {
    if t != [] {
      LowerFixesSlugAlphabet(t[1..]);
    }
  }

  /** Collapsing leaves a string alone that has no separator run longer than one dash. */
  lemma {:induction false} CollapseFixesSlugAlphabet(t: string)
    requires SlugAlphabet(t) && NoDoubleDash(t)
    ensures Collapse(t) == t
    decreases |t|
  {
    if t != [] {
      CollapseFixesSlugAlphabet(t[1..]);
      if !IsLowerAlnum(t[0]) {
        assert DropSeparators(t[1..]) == t[1..];
      }
    }
  }

  /** A well-formed handle is its own slug. */
  lemma SlugFixesSlugs(t: string)
    requires IsSlug(t)
    ensures Slug(t) == t
  {
    LowerFixesSlugAlphabet(t);
    CollapseFixesSlugAlphabet(t);
  }

  /** Deriving the handle again changes nothing. */
  lemma SlugIdempotent(s: string)
    ensures Slug(Slug(s)) == Slug(s)
  {
    SlugIsWellFormed(s);
    SlugFixesSlugs(Slug(s));
  }

  /** The slug is empty exactly when the lower-cased input has no ASCII letter or digit. */
  lemma SlugEmptyIffNoAlnum(s: string)
    ensures Slug(s) == [] <==> Alnums(ToLower(s)) == []
  {
    SlugKeepsAlnums(s);
    SlugIsWellFormed(s);
    var t := Slug(s);
    if t != [] {
      assert IsLowerAlnum(t[0]);
      assert Alnums(t) != [];
    }
  }

  // ---------------------------------------------------------------------------
  // The email domain: `email.split("@")[1] || ""`.

  function Domain(email: string): (d: string)
    ensures '@' !in d
  {
    var parts := Split(email, '@');
    if |parts| > 1 then parts[1] else ""
  }

  /** Without an `@` there is no domain. */
  lemma DomainWithoutAt(email: string)
    requires '@' !in email
    ensures Domain(email) == ""
  {
    SplitNoSeparator(email, '@');
  }

  /** The domain is the text after the first `@`, up to the next `@` or the end. */
  lemma DomainAfterFirstAt(local: string, domain: string, rest: string)
    requires '@' !in local && '@' !in domain
    requires rest == [] || rest[0] == '@'
    ensures Domain(local + "@" + domain + rest) == domain
  {
    var email := local + "@" + domain + rest;
    assert email == local + ['@'] + (domain + rest);
    SplitAtFirst(local, '@', domain + rest);
    if rest == [] {
      assert domain + rest == domain;
      SplitNoSeparator(domain, '@');
    } else {
      assert domain + rest == domain + ['@'] + rest[1..];
      SplitAtFirst(domain, '@', rest[1..]);
    }
    assert email[|local|] == '@';
  }

  // ---------------------------------------------------------------------------
  // The hooks: derive until the target is edited by hand

  datatype Derivation = HandleFromName | DomainFromEmail

  function Derive(kind: Derivation, input: string): string {
    match kind
    case HandleFromName => Slug(input)
    case DomainFromEmail => Domain(input)
  }

  /** The event the hook dispatches on the target after writing it. */
  function SyncEvent(kind: Derivation): string {
    match kind
    case HandleFromName => "blur"
    case DomainFromEmail => "change"
  }

  class Deriver {
    const kind: Derivation
    /** The `shouldDerive` flag of the hook's closure. */
    var shouldDerive: bool
    /** The target input's value; `None` when the page has no target input. */
    var target: Option<string>
    /** The events dispatched on the target, oldest first. */
    var dispatched: seq<string>

    /** `mounted()`: derivation starts switched on. */
    constructor (kind: Derivation, target: Option<string>)
      ensures this.kind == kind && this.target == target
      ensures shouldDerive && dispatched == []
    {
      this.kind := kind;
      this.target := target;
      shouldDerive := true;
      dispatched := [];
    }

    /** An `input` event on the target: the user typed `edited`; derivation stops for good. */
    method OnTargetInput(edited: string)
      requires target.Some?
      modifies this
      ensures !shouldDerive && target == Some(edited)
      ensures dispatched == old(dispatched)
    {
      target := Some(edited);
      shouldDerive := false;
    }

    /** An `input` event on the source element, whose value is now `value`. */
    method OnSourceInput(value: string)
      modifies this
      ensures shouldDerive == old(shouldDerive)
      ensures old(shouldDerive) && old(target).Some? ==>
        target == Some(Derive(kind, value)) && dispatched == old(dispatched) + [SyncEvent(kind)]
      ensures !(old(shouldDerive) && old(target).Some?) ==>
        target == old(target) && dispatched == old(dispatched)
    {
      if !shouldDerive {
        return;
      }
      var derived := Derive(kind, value);
      if target.Some? {
        target := Some(derived);
        dispatched := dispatched + [SyncEvent(kind)];
      }
    }
  }
}
