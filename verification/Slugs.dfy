/**
 Ledger references: free text becomes a slug, and company and person slugs become a reference.

 Case, whitespace and alphanumerics are those of ASCII.
 */
module Slugs {
  import opened Ascii
  import opened Wrappers

  predicate IsSpace(c: char) { c == ' ' || '\t' <= c <= '\r' || '\U{001C}' <= c <= '\U{001F}' }

  predicate IsAlnum(c: char) { 'a' <= c <= 'z' || '0' <= c <= '9' || IsUpper(c) }

  function StripLeft(s: string, drop: char -> bool): string {
    if s != [] && drop(s[0]) then StripLeft(s[1..], drop) else s
  }

  function StripRight(s: string, drop: char -> bool): string {
    if s != [] && drop(s[|s| - 1]) then StripRight(s[..|s| - 1], drop) else s
  }

  function Strip(s: string, drop: char -> bool): string { StripRight(StripLeft(s, drop), drop) }

  /** The loop's output on s, told whether its last character was a dash. */
  function Dashed(s: string, prevDash: bool): string {
    if s == [] then []
    else if IsAlnum(s[0]) then [s[0]] + Dashed(s[1..], false)
    else if prevDash then Dashed(s[1..], true)
    else "-" + Dashed(s[1..], true)
  }

  predicate IsDash(c: char) { c == '-' }

  function Slug(s: string): string { Strip(Dashed(Lower(Strip(s, IsSpace)), false), IsDash) }

  method Slugify(s: string) returns (slug: string)
    ensures slug == Slug(s)
  {
    var text := Lower(Strip(s, IsSpace));
    var out := Undouble(text);
    slug := Strip(out, IsDash);
  }

  method Undouble(text: string) returns (out: string)
    ensures out == Dashed(text, false)
  {
    out := [];
    var prevDash := false;
    assert text[0..] == text && [] + Dashed(text, false) == Dashed(text, false);
    for i := 0 to |text|
      invariant out + Dashed(text[i..], prevDash) == Dashed(text, false)
    {
      var ch := text[i];
      if IsAlnum(ch) {
        out := out + [ch];
        prevDash := false;
      } else if !prevDash {
        out := out + ['-'];
        prevDash := true;
      }
    }
    assert out + Dashed(text[|text|..], prevDash) == out;
  }

  // ----- The words of a text -----

  function RunLength(s: string): (k: nat)
    ensures k <= |s| && (forall i :: 0 <= i < k ==> IsAlnum(s[i])) && (k < |s| ==> !IsAlnum(s[k]))
  {
    if s == [] || !IsAlnum(s[0]) then 0 else 1 + RunLength(s[1..])
  }

  /** The maximal runs of alphanumerics. */
  function Words(s: string): seq<string> {
    if s == [] then []
    else if IsAlnum(s[0]) then [s[..RunLength(s)]] + Words(s[RunLength(s)..])
    else Words(s[1..])
  }

  function JoinDash(words: seq<string>): string {
    if words == [] then []
    else if |words| == 1 then words[0]
    else words[0] + "-" + JoinDash(words[1..])
  }

  predicate IsWord(w: string) { w != [] && forall c :: c in w ==> IsAlnum(c) }

  ghost predicate AllWords(words: seq<string>) { forall i :: 0 <= i < |words| ==> IsWord(words[i]) }

  lemma {:induction false} WordsAreWords(s: string)
    ensures AllWords(Words(s))
    decreases |s|
  {
    if s != [] {
      if IsAlnum(s[0]) {
        WordsAreWords(s[RunLength(s)..]);
      } else {
        WordsAreWords(s[1..]);
      }
    }
  }

  lemma {:induction false} DashedWord(u: string, rest: string, prevDash: bool)
    requires IsWord(u)
    ensures Dashed(u + rest, prevDash) == u + Dashed(rest, false)
    decreases |u|
  {
    assert (u + rest)[1..] == u[1..] + rest && u == [u[0]] + u[1..];
    if |u| > 1 {
      assert forall c :: c in u[1..] ==> c in u;
      DashedWord(u[1..], rest, false);
    } else {
      assert u[1..] + rest == rest;
    }
  }

  function Tail(s: string): string {
    if Words(s) != [] && !IsAlnum(s[|s| - 1]) then "-" else ""
  }

  lemma {:induction false} NoWords(s: string)
    requires Words(s) == [] && s != []
    ensures !IsAlnum(s[|s| - 1])
    decreases |s|
  {
    if |s| > 1 {
      NoWords(s[1..]);
    }
  }

  /** Past a leading dash the loop writes the words joined by dashes, and one more dash after a trailing gap. */
  lemma {:induction false} DashedIsJoined(s: string)
    ensures Dashed(s, true) == JoinDash(Words(s)) + Tail(s)
    decreases |s|
  {
    if s == [] {
    } else if !IsAlnum(s[0]) {
      DashedIsJoined(s[1..]);
    } else {
      var k := RunLength(s);
      var u, rest := s[..k], s[k..];
      assert s == u + rest;
      DashedWord(u, rest, true);
      if rest == [] {
        assert Words(s) == [u] && u + [] == u;
      } else {
        var gap := rest[1..];
        DashedIsJoined(gap);
        assert Words(rest) == Words(gap);
        if Words(gap) == [] && gap != [] {
          NoWords(gap);
        }
        assert Words(s) == [u] + Words(gap);
        JoinWord(u, Words(gap), Dashed(rest, false), Tail(gap));
      }
    }
  }

  lemma JoinWord(u: string, words: seq<string>, dashed: string, tail: string)
    requires dashed == "-" + (JoinDash(words) + tail)
    ensures words == [] && tail == [] ==> u + dashed == JoinDash([u] + words) + "-"
    ensures words != [] ==> u + dashed == JoinDash([u] + words) + tail
  {
    assert ([u] + words)[1..] == words;
    if words != [] {
      assert JoinDash([u] + words) == u + "-" + JoinDash(words);
      assert u + ("-" + (JoinDash(words) + tail)) == u + "-" + JoinDash(words) + tail;
    }
  }

  // ----- Trimming -----

  lemma {:induction false} JoinEnds(words: seq<string>)
    requires AllWords(words) && words != []
    ensures JoinDash(words) != [] && IsAlnum(JoinDash(words)[0]) && IsAlnum(JoinDash(words)[|JoinDash(words)| - 1])
  {
    assert words[0][0] in words[0] && words[0][|words[0]| - 1] in words[0];
    if |words| > 1 {
      JoinEnds(words[1..]);
    }
  }

  /** One dash at either end of a text that has none is all that trimming removes. */
  lemma TrimDashes(j: string, lead: string, tail: string)
    requires lead in {"", "-"} && tail in {"", "-"} && (j == [] ==> tail == [])
    requires j != [] ==> IsAlnum(j[0]) && IsAlnum(j[|j| - 1])
    ensures Strip(lead + j + tail, IsDash) == j
  {
    var x := lead + j + tail;
    if lead == "-" {
      assert x[1..] == j + tail;
    } else {
      assert x == j + tail;
    }
    assert StripLeft(j + tail, IsDash) == j + tail;
    assert StripLeft(x, IsDash) == j + tail;
    assert StripRight(j, IsDash) == j;
    if tail == "-" {
      assert (j + tail)[..|j + tail| - 1] == j;
    } else {
      assert j + tail == j;
    }
  }

  lemma DashedTrimmed(s: string)
    ensures Strip(Dashed(s, false), IsDash) == JoinDash(Words(s))
  {
    var j := JoinDash(Words(s));
    WordsAreWords(s);
    if Words(s) != [] {
      JoinEnds(Words(s));
    }
    if s == [] {
    } else if IsAlnum(s[0]) {
      DashedIsJoined(s);
      assert "" + j == j && Dashed(s, false) == Dashed(s, true);
      TrimDashes(j, "", Tail(s));
    } else {
      DashedIsJoined(s[1..]);
      assert Tail(s[1..]) == Tail(s) || Words(s) == [];
      assert "-" + (j + Tail(s[1..])) == "-" + j + Tail(s[1..]);
      TrimDashes(j, "-", Tail(s[1..]));
    }
  }

  lemma {:induction false} WordsSkip(s: string, gap: char)
    requires !IsAlnum(gap)
    ensures Words(s + [gap]) == Words(s)
    decreases |s|
  {
    if s == [] {
      assert Words([gap][1..]) == [];
    } else if !IsAlnum(s[0]) {
      assert (s + [gap])[1..] == s[1..] + [gap];
      WordsSkip(s[1..], gap);
    } else {
      var k := RunLength(s);
      RunSkip(s, gap);
      assert (s + [gap])[..k] == s[..k] && (s + [gap])[k..] == s[k..] + [gap];
      WordsSkip(s[k..], gap);
    }
  }

  lemma {:induction false} RunSkip(s: string, gap: char)
    requires !IsAlnum(gap)
    ensures RunLength(s + [gap]) == RunLength(s)
    decreases |s|
  {
    if s != [] && IsAlnum(s[0]) {
      assert (s + [gap])[1..] == s[1..] + [gap];
      RunSkip(s[1..], gap);
    }
  }

  lemma {:induction false} WordsStripLeft(s: string, drop: char -> bool)
    requires forall c :: drop(c) ==> !IsAlnum(c)
    ensures Words(StripLeft(s, drop)) == Words(s)
  {
    if s != [] && drop(s[0]) {
      WordsStripLeft(s[1..], drop);
    }
  }

  lemma {:induction false} WordsStripRight(s: string, drop: char -> bool)
    requires forall c :: drop(c) ==> !IsAlnum(c)
    ensures Words(StripRight(s, drop)) == Words(s)
  {
    if s != [] && drop(s[|s| - 1]) {
      WordsStripRight(s[..|s| - 1], drop);
      WordsSkip(s[..|s| - 1], s[|s| - 1]);
      assert s == s[..|s| - 1] + [s[|s| - 1]];
    }
  }

  lemma {:induction false} LowerStripLeft(s: string)
    ensures Lower(StripLeft(s, IsSpace)) == StripLeft(Lower(s), IsSpace)
  {
    if s != [] && IsSpace(s[0]) {
      LowerStripLeft(s[1..]);
      assert Lower(s)[1..] == Lower(s[1..]);
    }
  }

  lemma {:induction false} LowerStripRight(s: string)
    ensures Lower(StripRight(s, IsSpace)) == StripRight(Lower(s), IsSpace)
  {
    if s != [] && IsSpace(s[|s| - 1]) {
      LowerStripRight(s[..|s| - 1]);
      assert Lower(s)[..|s| - 1] == Lower(s[..|s| - 1]);
    }
  }

  /** A slug is the words of the lower-cased text joined by single dashes. */
  lemma SlugIsJoinedWords(s: string)
    ensures Slug(s) == JoinDash(Words(Lower(s)))
  {
    LowerStripLeft(s);
    LowerStripRight(StripLeft(s, IsSpace));
    DashedTrimmed(Lower(Strip(s, IsSpace)));
    WordsStripLeft(Lower(s), IsSpace);
    WordsStripRight(StripLeft(Lower(s), IsSpace), IsSpace);
  }

  // ----- What slugs look like -----

  lemma {:induction false} RunOfWord(u: string, rest: string)
    requires (forall c :: c in u ==> IsAlnum(c)) && (rest == [] || !IsAlnum(rest[0]))
    ensures RunLength(u + rest) == |u|
  {
    if u == [] {
      assert u + rest == rest;
    } else {
      assert (u + rest)[1..] == u[1..] + rest;
      assert u[0] in u && forall c :: c in u[1..] ==> c in u;
      RunOfWord(u[1..], rest);
    }
  }

  /** Joining words with dashes loses nothing. */
  lemma {:induction false} WordsOfJoin(words: seq<string>)
    requires AllWords(words)
    ensures Words(JoinDash(words)) == words
  {
    if words != [] {
      var u, rest := words[0], if |words| == 1 then "" else "-" + JoinDash(words[1..]);
      assert JoinDash(words) == u + rest;
      RunOfWord(u, rest);
      assert u[0] in u && (u + rest)[..|u|] == u && (u + rest)[|u|..] == rest;
      if |words| > 1 {
        WordsOfJoin(words[1..]);
        assert rest[1..] == JoinDash(words[1..]);
      }
    }
  }

  /** Two texts have one slug exactly when they have the same words, case and punctuation aside. */
  lemma SlugEqualIff(s: string, t: string)
    ensures Slug(s) == Slug(t) <==> Words(Lower(s)) == Words(Lower(t))
  {
    SlugIsJoinedWords(s);
    SlugIsJoinedWords(t);
    WordsAreWords(Lower(s));
    WordsAreWords(Lower(t));
    WordsOfJoin(Words(Lower(s)));
    WordsOfJoin(Words(Lower(t)));
  }

  predicate IsLow(c: char) { LowerChar(c) == c }

  lemma {:induction false} JoinLow(words: seq<string>)
    requires forall i :: 0 <= i < |words| ==> forall c :: c in words[i] ==> IsLow(c)
    ensures forall c :: c in JoinDash(words) ==> IsLow(c)
  {
    if |words| > 1 {
      JoinLow(words[1..]);
    }
  }

  lemma {:induction false} WordsLow(s: string)
    requires forall i :: 0 <= i < |s| ==> IsLow(s[i])
    ensures forall i :: 0 <= i < |Words(s)| ==> forall c :: c in Words(s)[i] ==> IsLow(c)
    decreases |s|
  {
    if s != [] {
      WordsLow(if IsAlnum(s[0]) then s[RunLength(s)..] else s[1..]);
    }
  }

  lemma SlugIsLow(s: string)
    ensures Lower(Slug(s)) == Slug(s)
  {
    SlugIsJoinedWords(s);
    WordsLow(Lower(s));
    JoinLow(Words(Lower(s)));
    assert forall i :: 0 <= i < |Slug(s)| ==> Slug(s)[i] in Slug(s);
  }

  /** Slugs are stable. */
  lemma SlugIdempotent(s: string)
    ensures Slug(Slug(s)) == Slug(s)
  {
    SlugIsLow(s);
    SlugIsJoinedWords(s);
    SlugIsJoinedWords(Slug(s));
    WordsAreWords(Lower(s));
    WordsOfJoin(Words(Lower(s)));
  }

  /** No dash leads or trails, and no two dashes meet. */
  predicate WellShaped(slug: string) {
    && (forall i :: 0 <= i < |slug| ==> IsAlnum(slug[i]) || slug[i] == '-')
    && (slug != [] ==> slug[0] != '-' && slug[|slug| - 1] != '-')
    && (forall i :: 0 < i < |slug| ==> slug[i - 1] != '-' || slug[i] != '-')
  }

  lemma {:induction false} JoinWellShaped(words: seq<string>)
    requires AllWords(words)
    ensures WellShaped(JoinDash(words))
  {
    if words != [] {
      var u := words[0];
      assert forall i :: 0 <= i < |u| ==> u[i] in u && IsAlnum(u[i]);
      if |words| > 1 {
        JoinWellShaped(words[1..]);
        JoinEnds(words[1..]);
        Prepend(u, JoinDash(words[1..]));
      }
    }
  }

  lemma Prepend(u: string, slug: string)
    requires u != [] && (forall i :: 0 <= i < |u| ==> IsAlnum(u[i])) && WellShaped(slug) && slug != []
    ensures WellShaped(u + "-" + slug)
  {
    var x := u + "-" + slug;
    assert forall i :: |u| < i < |x| ==> x[i] == slug[i - |u| - 1];
    assert x[|u|] == '-' && forall i :: 0 <= i < |u| ==> x[i] == u[i];
  }

  lemma SlugWellShaped(s: string)
    ensures WellShaped(Slug(s))
  {
    SlugIsJoinedWords(s);
    WordsAreWords(Lower(s));
    JoinWellShaped(Words(Lower(s)));
  }

  function Alnums(s: string): string {
    if s == [] then []
    else if IsAlnum(s[0]) then [s[0]] + Alnums(s[1..])
    else Alnums(s[1..])
  }

  lemma {:induction false} AlnumsAppend(a: string, b: string)
    ensures Alnums(a + b) == Alnums(a) + Alnums(b)
  {
    if a == [] {
      assert a + b == b;
    } else {
      assert (a + b)[1..] == a[1..] + b;
      AlnumsAppend(a[1..], b);
    }
  }

  lemma {:induction false} AlnumsOfJoin(s: string)
    ensures Alnums(JoinDash(Words(s))) == Alnums(s)
    decreases |s|
  {
    if s != [] && IsAlnum(s[0]) {
      var u, rest := s[..RunLength(s)], s[RunLength(s)..];
      AlnumsOfJoin(rest);
      assert s == u + rest;
      AlnumsAppend(u, rest);
      assert ([u] + Words(rest))[1..] == Words(rest);
      if Words(rest) != [] {
        AlnumsAppend(u, "-" + JoinDash(Words(rest)));
        assert ("-" + JoinDash(Words(rest)))[1..] == JoinDash(Words(rest));
        assert u + "-" + JoinDash(Words(rest)) == u + ("-" + JoinDash(Words(rest)));
      }
    } else if s != [] {
      AlnumsOfJoin(s[1..]);
    }
  }

  /** Every letter and digit is kept, in order. */
  lemma SlugKeepsAlnums(s: string)
    ensures Alnums(Slug(s)) == Alnums(Lower(s))
  {
    SlugIsJoinedWords(s);
    AlnumsOfJoin(Lower(s));
  }

  // ----- References -----

  datatype LedgerRow = LedgerRow(ref: string, company: string, person: string)

  function Present(parts: seq<string>): seq<string> {
    if parts == [] then []
    else if parts[0] == [] then Present(parts[1..])
    else [parts[0]] + Present(parts[1..])
  }

  function MakeRef(row: LedgerRow): Result<string, LedgerRow> {
    var explicit := Strip(row.ref, IsSpace);
    if explicit != [] then Success(explicit)
    else
      var parts := Present([Slug(row.company), Slug(row.person)]);
      if parts == [] then Failure(row) else Success("OUT-" + JoinDash(parts))
  }

  /** All words of a row, company first. */
  function RowWords(row: LedgerRow): seq<string> { Words(Lower(row.company)) + Words(Lower(row.person)) }

  lemma {:induction false} JoinAppend(a: seq<string>, b: seq<string>)
    requires a != [] && b != []
    ensures JoinDash(a + b) == JoinDash(a) + "-" + JoinDash(b)
  {
    if |a| == 1 {
      assert (a + b)[1..] == b;
    } else {
      assert (a + b)[1..] == a[1..] + b;
      JoinAppend(a[1..], b);
      assert a[0] + "-" + (JoinDash(a[1..]) + "-" + JoinDash(b)) == a[0] + "-" + JoinDash(a[1..]) + "-" + JoinDash(b);
    }
  }

  /** A derived reference is all the words of the row; no words, no reference. */
  lemma DerivedRef(row: LedgerRow)
    requires Strip(row.ref, IsSpace) == []
    ensures MakeRef(row) == if RowWords(row) == [] then Failure(row) else Success("OUT-" + JoinDash(RowWords(row)))
  {
    var c, p := Words(Lower(row.company)), Words(Lower(row.person));
    SlugIsJoinedWords(row.company);
    SlugIsJoinedWords(row.person);
    WordsAreWords(Lower(row.company));
    WordsAreWords(Lower(row.person));
    PresentTwo(JoinDash(c), JoinDash(p));
    if c != [] {
      JoinEnds(c);
    }
    if p != [] {
      JoinEnds(p);
    }
    if c != [] && p != [] {
      JoinAppend(c, p);
    }
    assert c == [] ==> c + p == p;
    assert p == [] ==> c + p == c;
  }

  lemma PresentTwo(a: string, b: string)
    ensures Present([a, b]) == [] <==> a == [] && b == []
    ensures JoinDash(Present([a, b])) == if a == [] then b else if b == [] then a else a + "-" + b
  {
    assert [a, b][1..] == [b] && [b][1..] == [];
    assert Present([b]) == if b == [] then [] else [b];
    assert JoinDash([b]) == b && JoinDash([a]) == a;
    assert JoinDash([a, b]) == a + "-" + JoinDash([b]);
  }

  /**
   Two rows without an explicit reference get the same one exactly when they have the same words in the same
   order, wherever company ends and person begins.
   */
  lemma DerivedRefsCollideIff(a: LedgerRow, b: LedgerRow)
    requires Strip(a.ref, IsSpace) == [] && Strip(b.ref, IsSpace) == [] && MakeRef(a).Success? && MakeRef(b).Success?
    ensures MakeRef(a).value == MakeRef(b).value <==> RowWords(a) == RowWords(b)
  {
    DerivedRef(a);
    DerivedRef(b);
    RowWordsAreWords(a);
    RowWordsAreWords(b);
    WordsOfJoin(RowWords(a));
    WordsOfJoin(RowWords(b));
    assert ("OUT-" + JoinDash(RowWords(a)))[4..] == JoinDash(RowWords(a));
    assert ("OUT-" + JoinDash(RowWords(b)))[4..] == JoinDash(RowWords(b));
  }

  lemma RowWordsAreWords(row: LedgerRow)
    ensures AllWords(RowWords(row))
  {
    WordsAreWords(Lower(row.company));
    WordsAreWords(Lower(row.person));
  }

  // ----- Characters, spelled out -----

  /** The ten ASCII characters that `str.strip` takes off. */
  lemma SpaceIff(c: char)
    ensures IsSpace(c) <==> c in [' ', '\t', '\n', '\U{000B}', '\U{000C}', '\r', '\U{001C}', '\U{001D}', '\U{001E}', '\U{001F}']
  {
  }

  const LETTERS := "abcdefghijklmnopqrstuvwxyz"

  const CAPITALS := "ABCDEFGHIJKLMNOPQRSTUVWXYZ"

  const FIGURES := "0123456789"

  lemma LetterIff(c: char)
    ensures 'a' <= c <= 'z' <==> c in LETTERS
  {
    assert 'a' <= c <= 'z' ==> LETTERS[c as int - 'a' as int] == c;
  }

  lemma CapitalIff(c: char)
    ensures 'A' <= c <= 'Z' <==> c in CAPITALS
  {
    assert 'A' <= c <= 'Z' ==> CAPITALS[c as int - 'A' as int] == c;
  }

  lemma FigureIff(c: char)
    ensures '0' <= c <= '9' <==> c in FIGURES
  {
    assert '0' <= c <= '9' ==> FIGURES[c as int - '0' as int] == c;
  }

  lemma AlnumIff(c: char)
    ensures IsAlnum(c) <==> c in LETTERS || c in CAPITALS || c in FIGURES
    ensures c !in CAPITALS ==> LowerChar(c) == c
    ensures LowerChar(c) !in CAPITALS
  {
    LetterIff(c);
    CapitalIff(c);
    FigureIff(c);
    CapitalIff(LowerChar(c));
  }

  lemma {:induction false} StripLeftParts(s: string, drop: char -> bool) returns (a: string)
    ensures s == a + StripLeft(s, drop) && forall i :: 0 <= i < |a| ==> drop(a[i])
    ensures StripLeft(s, drop) != [] ==> !drop(StripLeft(s, drop)[0])
  {
    if s != [] && drop(s[0]) {
      a := StripLeftParts(s[1..], drop);
      assert s == [s[0]] + s[1..];
      assert [s[0]] + (a + StripLeft(s, drop)) == ([s[0]] + a) + StripLeft(s, drop);
      a := [s[0]] + a;
    } else {
      a := [];
    }
  }

  lemma {:induction false} StripRightParts(s: string, drop: char -> bool) returns (b: string)
    ensures s == StripRight(s, drop) + b && forall i :: 0 <= i < |b| ==> drop(b[i])
    ensures StripRight(s, drop) != [] ==> !drop(StripRight(s, drop)[|StripRight(s, drop)| - 1])
  {
    if s != [] && drop(s[|s| - 1]) {
      var front, last := s[..|s| - 1], s[|s| - 1];
      b := StripRightParts(front, drop);
      assert s == front + [last];
      assert (StripRight(s, drop) + b) + [last] == StripRight(s, drop) + (b + [last]);
      b := b + [last];
    } else {
      b := [];
    }
  }

  /** Stripping takes such characters off both ends, all of them and no others. */
  lemma StripParts(s: string, drop: char -> bool) returns (a: string, b: string)
    ensures s == a + Strip(s, drop) + b
    ensures (forall i :: 0 <= i < |a| ==> drop(a[i])) && forall i :: 0 <= i < |b| ==> drop(b[i])
    ensures Strip(s, drop) != [] ==> !drop(Strip(s, drop)[0]) && !drop(Strip(s, drop)[|Strip(s, drop)| - 1])
  {
    a := StripLeftParts(s, drop);
    b := StripRightParts(StripLeft(s, drop), drop);
    assert a + (Strip(s, drop) + b) == a + Strip(s, drop) + b;
    if Strip(s, drop) != [] {
      assert StripLeft(s, drop)[0] == Strip(s, drop)[0];
    }
  }

  /** The text of a slug: small letters, figures and dashes, and no dash at an end or beside another. */
  lemma SlugText(s: string, slug: string)
    requires slug == Slug(s)
    ensures forall i :: 0 <= i < |slug| ==> slug[i] in LETTERS || slug[i] in FIGURES || slug[i] == '-'
    ensures slug != [] ==> slug[0] != '-' && slug[|slug| - 1] != '-'
    ensures forall i :: 0 < i < |slug| ==> slug[i - 1] != '-' || slug[i] != '-'
  {
    SlugWellShaped(s);
    SlugKeepsAlnums(s);
    forall i | 0 <= i < |slug|
      ensures slug[i] in LETTERS || slug[i] in FIGURES || slug[i] == '-'
    {
      AlnumIff(slug[i]);
      if IsAlnum(slug[i]) {
        AlnumsHold(slug, i);
        AlnumsFrom(Lower(s), slug[i]);
        var j :| 0 <= j < |Lower(s)| && Lower(s)[j] == slug[i];
        AlnumIff(s[j]);
      }
    }
  }

  /** The letters and figures of a text, in order. */
  lemma AlnumsOf(c: char, s: string)
    ensures Alnums([]) == [] && Alnums([c] + s) == (if IsAlnum(c) then [c] else []) + Alnums(s)
  {
    assert ([c] + s)[1..] == s;
  }

  lemma {:induction false} AlnumsHold(s: string, i: nat)
    requires i < |s| && IsAlnum(s[i])
    ensures s[i] in Alnums(s)
  {
    if i > 0 {
      AlnumsHold(s[1..], i - 1);
    }
  }

  lemma {:induction false} AlnumsFrom(s: string, c: char)
    requires c in Alnums(s)
    ensures exists j :: 0 <= j < |s| && s[j] == c
  {
    if IsAlnum(s[0]) && c == s[0] {
      assert s[0] == c;
    } else {
      AlnumsFrom(s[1..], c);
      var j :| 0 <= j < |s[1..]| && s[1..][j] == c;
      assert s[j + 1] == c;
    }
  }

  /** A reference of its own wins, stripped; only a row without one is given a derived reference. */
  lemma ExplicitRef(row: LedgerRow)
    ensures (forall i :: 0 <= i < |row.ref| ==> IsSpace(row.ref[i])) <==> Strip(row.ref, IsSpace) == []
    ensures Strip(row.ref, IsSpace) != [] ==> MakeRef(row) == Success(Strip(row.ref, IsSpace))
  {
    var a, b := StripParts(row.ref, IsSpace);
    var x := Strip(row.ref, IsSpace);
    if x != [] {
      assert row.ref[|a|] == x[0];
    } else {
      assert row.ref == a + b;
    }
  }
}
