/**
 * `slugify(value)` on ASCII text: lower-case, drop every character that is
 * not a word character, whitespace or '-', turn every run of '-' and
 * whitespace into a single '-', then strip '-' and '_' from both ends.
 */
module Slugify {

  predicate IsAscii(s: string) {
    forall i :: 0 <= i < |s| ==> s[i] < 128 as char
  }

  predicate IsUpper(c: char) { 'A' <= c <= 'Z' }
  predicate IsLower(c: char) { 'a' <= c <= 'z' }
  predicate IsDigit(c: char) { '0' <= c <= '9' }

  /** `\w` restricted to ASCII: letters, digits and '_'. */
  predicate IsWord(c: char) { IsUpper(c) || IsLower(c) || IsDigit(c) || c == '_' }

  /** `\s` of a str pattern restricted to ASCII: \t \n \v \f \r, the
      separators 0x1c-0x1f and the space. */
  predicate IsSpace(c: char) {
    (9 <= c as int <= 13) || (28 <= c as int <= 31) || c == ' '
  }

  /** The characters a slug is made of. */
  predicate IsSlugChar(c: char) { IsLower(c) || IsDigit(c) || c == '_' || c == '-' }

  function LowerChar(c: char): char {
    if IsUpper(c) then (c as int + 32) as char else c
  }

  /** `str.lower()` on ASCII text. */
  function Lower(s: string): (r: string)
    ensures |r| == |s|
    ensures forall i :: 0 <= i < |s| ==> !IsUpper(r[i])
    ensures forall i :: 0 <= i < |s| ==> (IsWord(s[i]) <==> IsWord(r[i]))
    ensures forall i :: 0 <= i < |s| ==> !IsUpper(s[i]) ==> r[i] == s[i]
    ensures forall i :: 0 <= i < |s| ==> IsUpper(s[i]) ==> r[i] == (s[i] as int + 32) as char
  {
    seq(|s|, i requires 0 <= i < |s| => LowerChar(s[i]))
  }

  /** The characters `[\w\s-]` matches: they survive removal. */
  predicate IsAllowed(c: char) { IsWord(c) || IsSpace(c) || c == '-' }

  /** `re.sub(r'[^\w\s-]', '', s)`. */
  function RemoveDisallowed(s: string): (r: string)
    ensures |r| <= |s|
    ensures forall i :: 0 <= i < |r| ==> IsAllowed(r[i])
    ensures forall i :: 0 <= i < |r| ==> r[i] in s
    ensures (forall i :: 0 <= i < |s| ==> IsAllowed(s[i])) ==> r == s
  {
    if s == [] then []
    else if IsAllowed(s[0]) then [s[0]] + RemoveDisallowed(s[1..])
    else RemoveDisallowed(s[1..])
  }

  /** One character is kept exactly when it is allowed. */
  lemma RemoveDisallowedChar(c: char)
    ensures RemoveDisallowed([c]) == if IsAllowed(c) then [c] else []
  {
    assert [c][1..] == [];
  }

  /** Removal works character by character: the allowed characters of a + b
      are those of a followed by those of b, in order. */
  lemma {:induction false} RemoveDisallowedConcat(a: string, b: string)
    ensures RemoveDisallowed(a + b) == RemoveDisallowed(a) + RemoveDisallowed(b)
  {
    if a != [] {
      assert (a + b)[0] == a[0];
      assert (a + b)[1..] == a[1..] + b;
      RemoveDisallowedConcat(a[1..], b);
    } else {
      assert a + b == b;
    }
  }

  predicate IsDashOrSpace(c: char) { c == '-' || IsSpace(c) }

  /** Drops the leading run of '-' and whitespace. */
  function DropRun(s: string): (r: string)
    ensures |r| <= |s|
    ensures r == [] || !IsDashOrSpace(r[0])
  {
    if s != [] && IsDashOrSpace(s[0]) then DropRun(s[1..]) else s
  }

  /** What is left after the run is a suffix of the text. */
  lemma {:induction false} DropRunSuffix(s: string)
    ensures DropRun(s) == s[|s| - |DropRun(s)|..]
  {
    if s != [] && IsDashOrSpace(s[0]) {
      DropRunSuffix(s[1..]);
    }
  }

  /** The dropped run holds no character that `Plain` keeps. */
  lemma {:induction false} DropRunPlain(s: string)
    ensures Plain(DropRun(s)) == Plain(s)
  {
    if s != [] && IsDashOrSpace(s[0]) {
      DropRunPlain(s[1..]);
    }
  }

  /** The characters of s other than '-' and whitespace, in order. */
  function Plain(s: string): string {
    if s == [] then [] else (if IsDashOrSpace(s[0]) then [] else [s[0]]) + Plain(s[1..])
  }

  /** `re.sub(r'[-\s]+', '-', s)`: every maximal run becomes one '-', and
      every other character passes through, in order. */
  function Collapse(s: string): (r: string)
    ensures |r| <= |s|
    decreases |s|
  {
    if s == [] then []
    else if IsDashOrSpace(s[0]) then ['-'] + Collapse(DropRun(s[1..]))
    else [s[0]] + Collapse(s[1..])
  }

  /** Collapsing keeps every character other than '-' and whitespace, in order. */
  lemma {:induction false} CollapsePlain(s: string)
    ensures Plain(Collapse(s)) == Plain(s)
    decreases |s|
  {
    if s != [] {
      if IsDashOrSpace(s[0]) {
        DropRunPlain(s[1..]);
        CollapsePlain(DropRun(s[1..]));
        PlainCons('-', Collapse(DropRun(s[1..])));
      } else {
        CollapsePlain(s[1..]);
        PlainCons(s[0], Collapse(s[1..]));
      }
    }
  }

  /** A leading run of separators is dropped whole, up to the first other character. */
  lemma {:induction false} DropRunSeparators(w: string, b: string)
    requires forall i :: 0 <= i < |w| ==> IsDashOrSpace(w[i])
    requires b == [] || !IsDashOrSpace(b[0])
    ensures DropRun(w + b) == b
  {
    if w != [] {
      assert (w + b)[1..] == w[1..] + b;
      DropRunSeparators(w[1..], b);
    } else {
      assert w + b == b;
    }
  }

  /** Dropping a leading run from a text that ends in a non-separator keeps
      that last character, and is not affected by what follows. */
  lemma {:induction false} DropRunAppend(x: string, y: string)
    requires x != [] && !IsDashOrSpace(x[|x| - 1])
    ensures DropRun(x) != [] && DropRun(x)[|DropRun(x)| - 1] == x[|x| - 1]
    ensures DropRun(x + y) == DropRun(x) + y
  {
    if IsDashOrSpace(x[0]) {
      assert (x + y)[1..] == x[1..] + y;
      DropRunAppend(x[1..], y);
    }
  }

  /** A run of '-' and whitespace between two non-separators becomes one '-':
      `re.sub` replaces the whole match by a single '-'. */
  lemma {:induction false} CollapseRun(a: string, w: string, b: string)
    requires w != [] && forall i :: 0 <= i < |w| ==> IsDashOrSpace(w[i])
    requires a == [] || !IsDashOrSpace(a[|a| - 1])
    requires b == [] || !IsDashOrSpace(b[0])
    ensures Collapse(a + (w + b)) == Collapse(a) + "-" + Collapse(b)
    decreases |a|
  {
    if a == [] {
      RunThenRest(a, w, b);
    } else {
      var x, head := CollapseStep(a, w + b);
      CollapseRun(x, w, b);
      Regroup(Collapse(a), Collapse(a + (w + b)), head, Collapse(x), Collapse(x + (w + b)), Collapse(b));
    }
  }

  /** The first step of collapsing a text that ends in a non-separator: its
      head is emitted, and the rest x is shorter, still ends in the same
      character, and is collapsed the same way whatever follows it. */
  lemma CollapseStep(a: string, y: string) returns (x: string, head: string)
    requires a != [] && !IsDashOrSpace(a[|a| - 1])
    ensures |x| < |a| && (x == [] || !IsDashOrSpace(x[|x| - 1]))
    ensures Collapse(a) == head + Collapse(x)
    ensures Collapse(a + y) == head + Collapse(x + y)
  {
    var t := a[1..];
    assert a == [a[0]] + t;
    assert a + y == [a[0]] + (t + y);
    CollapseCons(a[0], t + y);
    CollapseCons(a[0], t);
    if IsDashOrSpace(a[0]) {
      DropRunAppend(t, y);
      x, head := DropRun(t), "-";
    } else {
      x, head := t, [a[0]];
    }
  }

  /** Regrouping the concatenations of one step. */
  lemma Regroup(ca: string, cawb: string, head: string, cx: string, cxwb: string, cb: string)
    requires ca == head + cx && cawb == head + cxwb && cxwb == cx + "-" + cb
    ensures cawb == ca + "-" + cb
  {
  }

  /** One step of the collapse. */
  lemma CollapseCons(c: char, rest: string)
    ensures Collapse([c] + rest) == if IsDashOrSpace(c) then "-" + Collapse(DropRun(rest)) else [c] + Collapse(rest)
  {
    assert ([c] + rest)[1..] == rest;
  }

  /** The a = [] case of CollapseRun. */
  lemma RunThenRest(a: string, w: string, b: string)
    requires a == []
    requires w != [] && forall i :: 0 <= i < |w| ==> IsDashOrSpace(w[i])
    requires b == [] || !IsDashOrSpace(b[0])
    ensures Collapse(a + (w + b)) == Collapse(a) + "-" + Collapse(b)
  {
    assert a + (w + b) == w + b && Collapse(a) == [];
    assert (w + b)[0] == w[0];
    assert (w + b)[1..] == w[1..] + b;
    DropRunSeparators(w[1..], b);
  }

  /** A text without '-' and whitespace passes through unchanged. */
  lemma {:induction false} CollapseNoSeparators(s: string)
    requires forall i :: 0 <= i < |s| ==> !IsDashOrSpace(s[i])
    ensures Collapse(s) == s
  {
    if s != [] {
      CollapseNoSeparators(s[1..]);
      assert s == [s[0]] + s[1..];
    }
  }

  lemma PlainCons(c: char, t: string)
    ensures Plain([c] + t) == (if IsDashOrSpace(c) then [] else [c]) + Plain(t)
  {
    assert ([c] + t)[1..] == t;
  }

  /** Only '-' and '_': what stripping may remove. */
  predicate StripChars(t: string) {
    forall i :: 0 <= i < |t| ==> t[i] == '-' || t[i] == '_'
  }

  /** `s.lstrip('-_')` */
  function StripLeft(s: string): (r: string)
    ensures |r| <= |s| && r == s[|s| - |r|..]
    ensures r == [] || (r[0] != '-' && r[0] != '_')
    ensures StripChars(s[..|s| - |r|])
  {
    if s != [] && (s[0] == '-' || s[0] == '_') then StripLeft(s[1..]) else s
  }

  /** `s.rstrip('-_')` */
  function StripRight(s: string): (r: string)
    ensures |r| <= |s| && r == s[..|r|]
    ensures r == [] || (r[|r| - 1] != '-' && r[|r| - 1] != '_')
    ensures StripChars(s[|r|..])
  {
    if s != [] && (s[|s| - 1] == '-' || s[|s| - 1] == '_') then StripRight(s[..|s| - 1]) else s
  }

  /** r is the piece of s starting at a, with only '-' and '_' around it. */
  predicate Trimmed(s: string, a: nat, r: string) {
    a + |r| <= |s| && r == s[a..a + |r|] && StripChars(s[..a]) && StripChars(s[a + |r|..])
  }

  /** Neither the first nor the last character is '-' or '_'. */
  predicate NoStripCharAtEnds(r: string) {
    r == [] || (r[0] != '-' && r[0] != '_' && r[|r| - 1] != '-' && r[|r| - 1] != '_')
  }

  /** `s.strip('-_')`: the piece of s between a prefix and a suffix made of
      '-' and '_' only, itself neither starting nor ending with either. */
  function Strip(s: string): (r: string)
    ensures Trimmed(s, |s| - |StripLeft(s)|, r)
    ensures NoStripCharAtEnds(r)
  {
    StripFacts(s);
    StripRight(StripLeft(s))
  }

  lemma StripFacts(s: string)
    ensures Trimmed(s, |s| - |StripLeft(s)|, StripRight(StripLeft(s)))
    ensures NoStripCharAtEnds(StripRight(StripLeft(s)))
  {
    var l := StripLeft(s);
    var r := StripRight(l);
    SuffixPrefix(s, |s| - |l|, l, r);
    assert r != [] ==> r[0] == l[0];
  }

  /** A prefix r of the suffix l = s[a..], with only '-' and '_' before and
      after it, is trimmed from s. */
  lemma SuffixPrefix(s: string, a: nat, l: string, r: string)
    requires a <= |s| && l == s[a..] && |r| <= |l| && r == l[..|r|]
    requires StripChars(s[..a]) && StripChars(l[|r|..])
    ensures Trimmed(s, a, r)
  {
    assert s[a + |r|..] == l[|r|..];
  }

  /** `slugify(value)` on ASCII text; the slug is never longer than the text. */
  function Slug(value: string): (r: string)
    requires IsAscii(value)
    ensures |r| <= |value|
  {
    Strip(Collapse(RemoveDisallowed(Lower(value))))
  }

  /** Slug characters only, and no "--". */
  predicate Clean(s: string) {
    (forall i :: 0 <= i < |s| ==> IsSlugChar(s[i]))
    && (forall i :: 0 <= i < |s| - 1 ==> !(s[i] == '-' && s[i + 1] == '-'))
  }

  /** A finished slug: clean, and no '-' or '_' at either end. */
  predicate IsSlug(s: string) {
    Clean(s) && (s == [] || (s[0] != '-' && s[0] != '_' && s[|s| - 1] != '-' && s[|s| - 1] != '_'))
  }

  // ---------------------------------------------------------------------
  // What each pass guarantees

  /** What removal after lower-casing leaves: lower-case word characters,
      whitespace and '-'. */
  predicate Kept(s: string) {
    forall i :: 0 <= i < |s| ==> (IsWord(s[i]) && !IsUpper(s[i])) || IsSpace(s[i]) || s[i] == '-'
  }

  lemma KeptSuffix(s: string, k: nat)
    requires Kept(s) && k <= |s|
    ensures Kept(s[k..])
  {
    forall i | 0 <= i < |s| - k
      ensures s[k..][i] == s[k + i]
    {
    }
  }

  /** A slug character in front of clean text keeps it clean, unless it
      makes a "--". */
  lemma ConsClean(x: char, r: string)
    requires IsSlugChar(x) && Clean(r)
    requires x == '-' ==> r == [] || r[0] != '-'
    ensures Clean([x] + r)
  {
    forall i | 0 <= i < |r|
      ensures ([x] + r)[i + 1] == r[i]
    {
    }
  }

  /** After removal and collapsing only slug characters remain, no
      whitespace, and no two '-' in a row. */
  lemma {:induction false} CollapseClean(s: string)
    requires Kept(s)
    ensures Clean(Collapse(s))
    ensures Collapse(s) != [] && Collapse(s)[0] == '-' <==> s != [] && IsDashOrSpace(s[0])
  {
    if s != [] {
      KeptSuffix(s, 1);
      if IsDashOrSpace(s[0]) {
        var t := DropRun(s[1..]);
        DropRunSuffix(s[1..]);
        KeptSuffix(s[1..], |s| - 1 - |t|);
        CollapseClean(t);
        ConsClean('-', Collapse(t));
      } else {
        CollapseClean(s[1..]);
        ConsClean(s[0], Collapse(s[1..]));
      }
    }
  }

  /** Removal after lower-casing leaves lower-case word characters, whitespace and '-'. */
  lemma KeptIsLowered(value: string)
    ensures Kept(RemoveDisallowed(Lower(value)))
  {
    var lowered := Lower(value);
    var kept := RemoveDisallowed(lowered);
    forall i | 0 <= i < |kept|
      ensures (IsWord(kept[i]) && !IsUpper(kept[i])) || IsSpace(kept[i]) || kept[i] == '-'
    {
      assert kept[i] in lowered;
      var j :| 0 <= j < |lowered| && lowered[j] == kept[i];
      assert !IsUpper(lowered[j]);
    }
  }

  /** A contiguous piece of clean text is clean. */
  lemma SliceClean(c: string, a: nat, b: nat)
    requires Clean(c) && a <= b <= |c|
    ensures Clean(c[a..b])
  {
    var r := c[a..b];
    forall i | 0 <= i < |r|
      ensures r[i] == c[a + i]
    {
    }
  }

  /** Stripping keeps a contiguous piece, so clean text stays clean and
      gains clean ends. */
  lemma StripClean(c: string)
    requires Clean(c)
    ensures IsSlug(Strip(c))
  {
    var l := StripLeft(c);
    var a := |c| - |l|;
    var r := StripRight(l);
    assert l == c[a..];
    SliceClean(c, a, |c|);
    SliceClean(l, 0, |r|);
    if r != [] {
      assert r[0] == l[0];
    }
  }

  /** Every slug is made of lower-case letters, digits, '_' and '-', has no
      whitespace, no "--", and neither starts nor ends with '-' or '_'. */
  lemma SlugifyIsSlug(value: string)
    requires IsAscii(value)
    ensures IsSlug(Slug(value))
    ensures forall i :: 0 <= i < |Slug(value)| ==> !IsSpace(Slug(value)[i])
  {
    var kept := RemoveDisallowed(Lower(value));
    KeptIsLowered(value);
    CollapseClean(kept);
    StripClean(Collapse(kept));
    assert Slug(value) == Strip(Collapse(kept));
  }

  // ---------------------------------------------------------------------
  // Idempotence: every pass leaves a slug unchanged

  lemma {:induction false} CollapseKeepsSlug(s: string)
    requires Clean(s)
    ensures Collapse(s) == s
  {
    if s != [] {
      var t := s[1..];
      SliceClean(s, 1, |s|);
      CollapseKeepsSlug(t);
      if IsDashOrSpace(s[0]) {
        assert s[0] == '-';
        assert DropRun(t) == t by {
          if t != [] {
            assert s[1] != '-' && !IsSpace(s[1]);
          }
        }
        assert Collapse(s) == ['-'] + Collapse(t);
      } else {
        assert Collapse(s) == [s[0]] + Collapse(t);
      }
      assert s == [s[0]] + t;
    }
  }

  lemma StripKeepsSlug(s: string)
    requires IsSlug(s)
    ensures Strip(s) == s
  {
  }

  /** Each pass leaves a slug as it is. */
  lemma SlugPassesThrough(s: string)
    requires IsSlug(s)
    ensures IsAscii(s) && Slug(s) == s
  {
    SlugCharsPass(s);
    CollapseKeepsSlug(s);
    StripKeepsSlug(s);
  }

  /** Lower-casing and removal leave slug characters alone. */
  lemma SlugCharsPass(s: string)
    requires Clean(s)
    ensures IsAscii(s) && Lower(s) == s && RemoveDisallowed(s) == s
  {
    forall i | 0 <= i < |s|
      ensures s[i] < 128 as char && !IsUpper(s[i])
      ensures IsAllowed(s[i])
    {
      assert IsSlugChar(s[i]);
    }
  }

  /** Slugifying a slug gives it back. */
  lemma SlugifyIdempotent(value: string)
    requires IsAscii(value)
    ensures IsAscii(Slug(value)) && Slug(Slug(value)) == Slug(value)
  {
    var s := Slug(value);
    SlugifyIsSlug(value);
    SlugPassesThrough(s);
  }
}
