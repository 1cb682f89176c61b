/**
 The URL slug of an event name. The source chains six string operations; they are shown to agree with a single
 left-to-right pass over the name, from which the normal form of slugs follows. `toLowerCase` is a parameter.
 */
module Slug {

  predicate IsWord(c: char) {
    'a' <= c <= 'z' || 'A' <= c <= 'Z' || '0' <= c <= '9' || c == '_'
  }

  /** White space and line terminators, as `\s` and `trim` have them. */
  predicate IsSpace(c: char) {
    || '\t' <= c <= '\r' || c == ' ' || c == '\U{00A0}' || c == '\U{1680}' || '\U{2000}' <= c <= '\U{200A}'
    || c == '\U{2028}' || c == '\U{2029}' || c == '\U{202F}' || c == '\U{205F}' || c == '\U{3000}' || c == '\U{FEFF}'
  }

  predicate IsHyphen(c: char) { c == '-' }

  predicate IsSeparator(c: char) { IsSpace(c) || IsHyphen(c) }

  // ------------------------------------------------------------ the chain

  function TrimLeft(s: string): string {
    if s != "" && IsSpace(s[0]) then TrimLeft(s[1..]) else s
  }

  function TrimRight(s: string): string {
    if s != "" && IsSpace(s[|s| - 1]) then TrimRight(s[..|s| - 1]) else s
  }

  /** Everything but word characters, white space and hyphens goes. */
  function Keep(s: string): string {
    if s == "" then ""
    else
      var c := s[|s| - 1];
      Keep(s[..|s| - 1]) + if IsWord(c) || IsSeparator(c) then [c] else ""
  }

  /** Each longest run of matching characters becomes one hyphen. */
  function Collapse(s: string, matches: char -> bool): string {
    if s == "" then ""
    else
      var rest, c := s[..|s| - 1], s[|s| - 1];
      if !matches(c) then Collapse(rest, matches) + [c]
      else if rest != "" && matches(rest[|rest| - 1]) then Collapse(rest, matches)
      else Collapse(rest, matches) + "-"
  }

  /** One hyphen goes at the front and one, other than that, at the back. */
  function StripEnds(s: string): string {
    var t := if s != "" && s[0] == '-' then s[1..] else s;
    if t != "" && t[|t| - 1] == '-' then t[..|t| - 1] else t
  }

  function Slug(name: string, lower: string -> string): string {
    StripEnds(Collapse(Collapse(Keep(TrimRight(TrimLeft(lower(name)))), IsSpace), IsHyphen))
  }

  // ---------------------------------------------------------- one pass

  datatype Pass = Pass(out: string, pending: bool)

  /** Word characters are copied; separators between two of them leave one hyphen; anything else is skipped. */
  function OnePass(s: string): Pass {
    if s == "" then Pass("", false)
    else
      var before, c := OnePass(s[..|s| - 1]), s[|s| - 1];
      if IsWord(c) then Pass(before.out + (if before.pending && before.out != "" then "-" else "") + [c], false)
      else if IsSeparator(c) then Pass(before.out, true)
      else before
  }

  lemma {:induction false} OutEndsInWords(s: string)
    ensures var out := OnePass(s).out; out != "" ==> IsWord(out[0]) && IsWord(out[|out| - 1])
    decreases |s|
  {
    if s != "" { OutEndsInWords(s[..|s| - 1]); }
  }

  lemma {:induction false} TrimLeftIsRedundant(space: string, s: string)
    requires forall i :: 0 <= i < |space| ==> IsSpace(space[i])
    ensures OnePass(space + s).out == OnePass(s).out
    ensures OnePass(space + s).out != "" ==> OnePass(space + s) == OnePass(s)
    decreases |space| + |s|
  {
    var all := space + s;
    if s != "" {
      assert all[..|all| - 1] == space + s[..|s| - 1];
      TrimLeftIsRedundant(space, s[..|s| - 1]);
    } else if space != "" {
      assert all[..|all| - 1] == space[..|space| - 1] + "";
      TrimLeftIsRedundant(space[..|space| - 1], "");
      assert IsSpace(all[|all| - 1]);
    }
  }

  lemma {:induction false} TrimLeftCuts(s: string) returns (space: string)
    ensures s == space + TrimLeft(s) && forall i :: 0 <= i < |space| ==> IsSpace(space[i])
    decreases |s|
  {
    if s != "" && IsSpace(s[0]) {
      var more := TrimLeftCuts(s[1..]);
      space := [s[0]] + more;
    } else {
      space := "";
    }
  }

  lemma {:induction false} TrimRightIsRedundant(s: string)
    ensures OnePass(TrimRight(s)).out == OnePass(s).out
    decreases |s|
  {
    if s != "" && IsSpace(s[|s| - 1]) { TrimRightIsRedundant(s[..|s| - 1]); }
  }

  /** Spaces to hyphens and then runs of hyphens to one is the same as runs of separators to one. */
  lemma {:induction false} CollapsesFuse(s: string)
    ensures Collapse(Collapse(s, IsSpace), IsHyphen) == Collapse(s, IsSeparator)
    ensures s == "" <==> Collapse(s, IsSpace) == ""
    ensures s != "" ==> var t := Collapse(s, IsSpace); IsHyphen(t[|t| - 1]) <==> IsSeparator(s[|s| - 1])
    decreases |s|
  {
    if s != "" {
      var rest := s[..|s| - 1];
      CollapsesFuse(rest);
      var t, u := Collapse(rest, IsSpace), Collapse(s, IsSpace);
      if u != t { assert u[..|u| - 1] == t; }
    }
  }

  predicate LeadsSeparated(k: string) { k != "" && IsSeparator(k[0]) }

  function Hyphen(present: bool): string { if present then "-" else "" }

  /** What the collapsed text looks like next to the single pass: the same, but for a hyphen at either end. */
  predicate Shaped(k: string, collapsed: string, p: Pass) {
    && (k == "" ==> p.out == "" && !p.pending)
    && (k != "" ==> (p.pending <==> IsSeparator(k[|k| - 1])) && (p.out == "" ==> p.pending && IsSeparator(k[0])))
    && collapsed == Hyphen(p.out != "" && LeadsSeparated(k)) + p.out + Hyphen(p.pending)
  }

  lemma CollapseMore(k: string, c: char, matches: char -> bool)
    ensures !matches(c) ==> Collapse(k + [c], matches) == Collapse(k, matches) + [c]
    ensures matches(c) && k != "" && matches(k[|k| - 1]) ==> Collapse(k + [c], matches) == Collapse(k, matches)
    ensures matches(c) && (k == "" || !matches(k[|k| - 1])) ==> Collapse(k + [c], matches) == Collapse(k, matches) + "-"
  {
    var more := k + [c];
    assert more[..|more| - 1] == k && more[|more| - 1] == c;
  }

  lemma ShapedWord(k: string, collapsed: string, p: Pass, c: char)
    requires Shaped(k, collapsed, p) && !IsSeparator(c)
    ensures Shaped(k + [c], collapsed + [c], Pass(p.out + (if p.pending && p.out != "" then "-" else "") + [c], false))
  {
    if p.out == "" {
      assert collapsed == Hyphen(p.pending);
    } else {
      assert (k + [c])[0] == k[0];
    }
  }

  lemma ShapedSeparator(k: string, collapsed: string, p: Pass, c: char)
    requires Shaped(k, collapsed, p) && IsSeparator(c)
    ensures Shaped(k + [c], collapsed + Hyphen(k == "" || !IsSeparator(k[|k| - 1])), Pass(p.out, true))
  {
    if k != "" { assert (k + [c])[0] == k[0]; }
  }

  lemma {:induction false} CollapsedShape(s: string)
    ensures Shaped(Keep(s), Collapse(Keep(s), IsSeparator), OnePass(s))
    decreases |s|
  {
    if s != "" {
      var rest, c := s[..|s| - 1], s[|s| - 1];
      CollapsedShape(rest);
      CollapseMore(Keep(rest), c, IsSeparator);
      if IsWord(c) {
        ShapedWord(Keep(rest), Collapse(Keep(rest), IsSeparator), OnePass(rest), c);
      } else if IsSeparator(c) {
        ShapedSeparator(Keep(rest), Collapse(Keep(rest), IsSeparator), OnePass(rest), c);
      } else {
        assert Keep(s) == Keep(rest);
      }
    }
  }

  /** The chain of six operations and the single pass build the same slug from every name. */
  lemma SlugIsOnePass(name: string, lower: string -> string)
    ensures Slug(name, lower) == OnePass(lower(name)).out
  {
    var s := lower(name);
    var left := TrimLeft(s);
    var t := TrimRight(left);
    var space := TrimLeftCuts(s);
    TrimLeftIsRedundant(space, left);
    TrimRightIsRedundant(left);
    CollapsesFuse(Keep(t));
    CollapsedShape(t);
    OutEndsInWords(t);
    var p := OnePass(t);
    StripExposes(p.out != "" && LeadsSeparated(Keep(t)), p.out, p.pending, Collapse(Keep(t), IsSeparator));
  }

  lemma StripExposes(lead: bool, out: string, trail: bool, padded: string)
    requires out != "" ==> out[0] != '-' && out[|out| - 1] != '-'
    requires padded == Hyphen(lead) + out + Hyphen(trail) && (out == "" ==> !lead)
    ensures StripEnds(padded) == out
  {
    var t := if padded != "" && padded[0] == '-' then padded[1..] else padded;
    if out == "" {
    } else {
      assert t == out + Hyphen(trail);
      assert (out + "-")[..|out|] == out;
    }
  }

  // -------------------------------------------------------- normal form

  predicate IsSlugChar(c: char) {
    'a' <= c <= 'z' || '0' <= c <= '9' || c == '_' || c == '-'
  }

  predicate NormalForm(t: string) {
    && (forall i :: 0 <= i < |t| ==> IsSlugChar(t[i]))
    && (forall i :: 0 < i < |t| ==> !(t[i - 1] == '-' && t[i] == '-'))
    && (t != "" ==> t[0] != '-' && t[|t| - 1] != '-')
  }

  predicate IsLowered(s: string) {
    forall i :: 0 <= i < |s| ==> !('A' <= s[i] <= 'Z')
  }

  /** What is asked of `toLowerCase`: no capital A to Z comes out, and slugs come out as they went in. */
  ghost predicate Lowers(lower: string -> string) {
    forall s :: IsLowered(lower(s)) && (NormalForm(s) ==> lower(s) == s)
  }

  lemma {:induction false} OnePassIsNormal(s: string)
    requires IsLowered(s)
    ensures NormalForm(OnePass(s).out)
    decreases |s|
  {
    if s != "" {
      OnePassIsNormal(s[..|s| - 1]);
    }
  }

  /** A prefix of a slug passes through; only a hyphen at its end is held back. */
  lemma {:induction false} NormalPasses(t: string)
    requires forall i :: 0 <= i < |t| ==> IsSlugChar(t[i])
    requires forall i :: 0 < i < |t| ==> !(t[i - 1] == '-' && t[i] == '-')
    requires t != "" ==> t[0] != '-'
    ensures OnePass(t).out + (if OnePass(t).pending then "-" else "") == t
    ensures t != "" ==> (OnePass(t).pending <==> t[|t| - 1] == '-')
    decreases |t|
  {
    if t != "" {
      NormalPasses(t[..|t| - 1]);
    }
  }

  /** Every slug is in normal form, and the names that are their own slugs are exactly those in normal form. */
  lemma SlugsAreNormal(name: string, lower: string -> string)
    requires Lowers(lower)
    ensures NormalForm(Slug(name, lower))
    ensures Slug(name, lower) == name <==> NormalForm(name)
  {
    SlugIsOnePass(name, lower);
    OnePassIsNormal(lower(name));
    if NormalForm(name) {
      NormalPasses(name);
    }
  }

  lemma SlugTwice(name: string, lower: string -> string)
    requires Lowers(lower)
    ensures Slug(Slug(name, lower), lower) == Slug(name, lower)
  {
    SlugsAreNormal(name, lower);
    SlugsAreNormal(Slug(name, lower), lower);
  }

  function WordChars(s: string): string {
    if s == "" then "" else WordChars(s[..|s| - 1]) + if IsWord(s[|s| - 1]) then [s[|s| - 1]] else ""
  }

  lemma WordCharsMore(s: string, c: char)
    ensures WordChars(s + [c]) == WordChars(s) + if IsWord(c) then [c] else ""
  {
    var t := s + [c];
    assert t[..|t| - 1] == s && t[|t| - 1] == c;
  }

  lemma {:induction false} OnePassKeepsWords(s: string)
    ensures WordChars(OnePass(s).out) == WordChars(s)
    decreases |s|
  {
    if s != "" {
      var rest, c := s[..|s| - 1], s[|s| - 1];
      var before := OnePass(rest);
      OnePassKeepsWords(rest);
      if IsWord(c) { KeepsWord(before, c); }
    }
  }

  /** A word character goes behind what there is, or behind a hyphen, which is none. */
  lemma KeepsWord(before: Pass, c: char)
    requires IsWord(c)
    ensures var hyphen := if before.pending && before.out != "" then "-" else "";
            WordChars(before.out + hyphen + [c]) == WordChars(before.out) + [c]
  {
    var hyphen := if before.pending && before.out != "" then "-" else "";
    WordCharsMore(before.out + hyphen, c);
    WordCharsMore(before.out, '-');
    assert before.out + "" == before.out;
    assert WordChars(before.out) + "" == WordChars(before.out);
  }

  /** The letters, digits and underscores of the lowered name all survive, in order. */
  lemma SlugKeepsWords(name: string, lower: string -> string)
    ensures WordChars(Slug(name, lower)) == WordChars(lower(name))
  {
    SlugIsOnePass(name, lower);
    OnePassKeepsWords(lower(name));
  }

  // --------------------------------------------------------- words and separators

  /** The white space and line terminators of ECMAScript, one by one. */
  predicate IsWhite(c: char) {
    c in {'\t', '\n', '\U{000B}', '\U{000C}', '\r', ' ', '\U{00A0}', '\U{1680}', '\U{2000}', '\U{2001}', '\U{2002}',
          '\U{2003}', '\U{2004}', '\U{2005}', '\U{2006}', '\U{2007}', '\U{2008}', '\U{2009}', '\U{200A}', '\U{2028}',
          '\U{2029}', '\U{202F}', '\U{205F}', '\U{3000}', '\U{FEFF}'}
  }

  lemma SpaceIsWhite(c: char)
    ensures IsSpace(c) <==> IsWhite(c)
  {}

  predicate IsLetterOrDigit(c: char) {
    'a' <= c <= 'z' || 'A' <= c <= 'Z' || '0' <= c <= '9'
  }

  ghost predicate NoWords(s: string) {
    forall c :: c in s ==> !IsLetterOrDigit(c) && c != '_'
  }

  ghost predicate HasSeparator(s: string) {
    exists c :: c in s && (IsWhite(c) || c == '-')
  }

  lemma SeparatorSnoc(s: string, c: char)
    ensures HasSeparator(s + [c]) <==> HasSeparator(s) || IsWhite(c) || c == '-'
  {
    if IsWhite(c) || c == '-' { assert c in s + [c]; }
    if d :| d in s && (IsWhite(d) || d == '-') { assert d in s + [c]; }
  }

  function Join(a: string, b: string): string {
    if a == "" then b else if b == "" then a else a + "-" + b
  }

  function Same(s: string): string { s }

  lemma {:induction false} NothingCopied(p: string, s: string)
    requires NoWords(s)
    ensures OnePass(p + s).out == OnePass(p).out
    ensures OnePass(p + s).pending <==> OnePass(p).pending || HasSeparator(s)
    decreases |s|
  {
    if s == "" {
      assert p + s == p;
    } else {
      var rest, c := s[..|s| - 1], s[|s| - 1];
      assert s == rest + [c] && (p + s)[..|p + s| - 1] == p + rest;
      NothingCopied(p, rest);
      SpaceIsWhite(c);
      SeparatorSnoc(rest, c);
      assert !IsWord(c) by { assert c in s; }
    }
  }

  /** What follows a held-back hyphen is joined to what there is. */
  lemma {:induction false} JoinedWhenPending(x: string, q: string)
    requires OnePass(x).pending
    ensures OnePass(x + q).out == Join(OnePass(x).out, OnePass(q).out)
    ensures OnePass(x + q).pending <==> OnePass(q).out == "" || OnePass(q).pending
    decreases |q|
  {
    if q == "" {
      assert x + q == x;
    } else {
      assert (x + q)[..|x + q| - 1] == x + q[..|q| - 1];
      JoinedWhenPending(x, q[..|q| - 1]);
    }
  }

  lemma {:induction false} SamePassGoesOn(x: string, y: string, q: string)
    requires OnePass(x) == OnePass(y)
    ensures OnePass(x + q) == OnePass(y + q)
    decreases |q|
  {
    if q == "" {
      assert x + q == x && y + q == y;
    } else {
      assert (x + q)[..|x + q| - 1] == x + q[..|q| - 1] && (y + q)[..|y + q| - 1] == y + q[..|q| - 1];
      SamePassGoesOn(x, y, q[..|q| - 1]);
    }
  }

  lemma {:induction false} WordsAreCopied(w: string)
    requires forall c :: c in w ==> IsLetterOrDigit(c) || c == '_'
    ensures OnePass(w) == Pass(w, false)
    decreases |w|
  {
    if w != "" {
      WordsAreCopied(w[..|w| - 1]);
      assert w[|w| - 1] in w;
    }
  }

  /**
   Where the lowered name has other than word characters between two parts, the slugs of the parts are joined by
   exactly one hyphen if white space or a hyphen is among them and neither slug is empty; otherwise those characters
   might as well not be there.
   */
  lemma SlugJoins(name: string, lower: string -> string, p: string, sep: string, q: string)
    requires lower(name) == p + sep + q && NoWords(sep)
    ensures Slug(name, lower)
            == if HasSeparator(sep) then Join(Slug(p, Same), Slug(q, Same)) else Slug(p + q, Same)
  {
    SlugIsOnePass(name, lower);
    SlugIsOnePass(p, Same);
    SlugIsOnePass(q, Same);
    SlugIsOnePass(p + q, Same);
    NothingCopied(p, sep);
    if HasSeparator(sep) {
      JoinedWhenPending(p + sep, q);
    } else {
      SamePassGoesOn(p + sep, p, q);
    }
  }

  /** A word is its own slug; with SlugJoins this fixes the slug of every name. */
  lemma SlugOfWord(name: string, lower: string -> string)
    requires forall c :: c in lower(name) ==> IsLetterOrDigit(c) || c == '_'
    ensures Slug(name, lower) == lower(name)
  {
    SlugIsOnePass(name, lower);
    WordsAreCopied(lower(name));
  }
}
