/** The licence policy of a composition: string tests over lower-cased licence names. */
module Licences {
  import opened Ascii

  predicate Contains(s: string, sub: string) {
    sub <= s || (s != [] && Contains(s[1..], sub))
  }

  /** `s.split("-")` */
  function SplitDash(s: string): (r: seq<string>)
    ensures |r| > 0
  {
    if s == [] then [[]]
    else
      var rest := SplitDash(s[1..]);
      if s[0] == '-' then [[]] + rest else [[s[0]] + rest[0]] + rest[1..]
  }

  predicate NoDerivatives(licence: string) {
    var l := Lower(licence);
    "nd" in SplitDash(l) || Contains(l, "no-deriv") || Contains(l, "noderiv") || Contains(l, "noderivatives")
  }

  predicate NonCommercial(licence: string) {
    var l := Lower(licence);
    "nc" in SplitDash(l) || Contains(l, "non-commercial") || Contains(l, "noncommercial")
  }

  predicate Commercial(licence: string) {
    var l := Lower(licence);
    Contains(l, "commercial") && !Contains(l, "non")
  }

  datatype Verdict = Compatible | ForbidsDerivatives(licences: seq<string>) | MixesCommercialUse

  function ForbiddingOnes(licences: seq<string>): seq<string> {
    if licences == [] then []
    else (if NoDerivatives(licences[0]) then [Lower(licences[0])] else []) + ForbiddingOnes(licences[1..])
  }

  function Judge(licences: seq<string>): Verdict {
    var nd := ForbiddingOnes(licences);
    if nd != [] then ForbidsDerivatives(nd)
    else if (exists l :: l in licences && NonCommercial(l)) && (exists l :: l in licences && Commercial(l)) then
      MixesCommercialUse
    else Compatible
  }

  lemma {:induction false} NoneForbids(licences: seq<string>)
    ensures ForbiddingOnes(licences) == [] <==> forall l :: l in licences ==> !NoDerivatives(l)
  {
    if licences != [] {
      NoneForbids(licences[1..]);
      assert licences == [licences[0]] + licences[1..];
    }
  }

  /**
   Leaving members out of a compatible composition keeps it compatible. In particular the verdict depends
   neither on the order of the members nor on repetitions.
   */
  lemma CompatibleSubset(licences: seq<string>, fewer: seq<string>)
    requires Judge(licences) == Compatible
    requires forall l :: l in fewer ==> l in licences
    ensures Judge(fewer) == Compatible
  {
    NoneForbids(licences);
    NoneForbids(fewer);
  }

  /** Compatibility is decided by pairs: one licence alone, or two against each other. */
  lemma CompatiblePairwise(licences: seq<string>)
    ensures Judge(licences) == Compatible <==>
      forall a, b :: a in licences && b in licences ==> Judge([a, b]) == Compatible
  {
    if Judge(licences) == Compatible {
      forall a, b | a in licences && b in licences
        ensures Judge([a, b]) == Compatible
      {
        CompatibleSubset(licences, [a, b]);
      }
    } else {
      NoneForbids(licences);
      if ForbiddingOnes(licences) != [] {
        var a :| a in licences && NoDerivatives(a);
        NoneForbids([a, a]);
        assert Judge([a, a]) != Compatible;
      } else {
        var a :| a in licences && NonCommercial(a);
        var b :| b in licences && Commercial(b);
        assert a in [a, b] && b in [a, b];
        assert Judge([a, b]) != Compatible;
      }
    }
  }

  // ----- Which texts forbid or clash -----

  lemma {:induction false} ContainsAt(s: string, sub: string) returns (a: string, b: string)
    requires Contains(s, sub)
    ensures s == a + sub + b
  {
    if sub <= s {
      a, b := "", s[|sub|..];
    } else {
      a, b := ContainsAt(s[1..], sub);
      assert s == [s[0]] + s[1..];
      assert [s[0]] + (a + sub + b) == ([s[0]] + a) + sub + b;
      a := [s[0]] + a;
    }
  }

  lemma {:induction false} ContainsPart(a: string, sub: string, b: string)
    ensures Contains(a + sub + b, sub)
  {
    var s := a + sub + b;
    if a == [] {
      assert s == sub + b;
    } else {
      ContainsPart(a[1..], sub, b);
      assert s[1..] == a[1..] + sub + b;
    }
  }

  function JoinDash(words: seq<string>): string {
    if words == [] then "" else if |words| == 1 then words[0] else words[0] + "-" + JoinDash(words[1..])
  }

  /** Splitting loses nothing and leaves no dash, which determines it. */
  lemma {:induction false} SplitJoins(s: string)
    ensures JoinDash(SplitDash(s)) == s
    ensures forall i :: 0 <= i < |SplitDash(s)| ==> '-' !in SplitDash(s)[i]
  {
    if s != [] {
      var rest := SplitDash(s[1..]);
      SplitJoins(s[1..]);
      assert s == [s[0]] + s[1..];
      if s[0] == '-' {
        assert ([[]] + rest)[1..] == rest;
        assert "" + "-" + JoinDash(rest) == [s[0]] + s[1..];
      } else {
        var words := [[s[0]] + rest[0]] + rest[1..];
        assert words[1..] == rest[1..];
        assert |rest| > 1 ==> ([s[0]] + rest[0]) + "-" + JoinDash(rest[1..]) == [s[0]] + (rest[0] + "-" + JoinDash(rest[1..]));
      }
    }
  }

  lemma {:induction false} JoinDetermines(v: seq<string>, w: seq<string>)
    requires v != [] && w != [] && JoinDash(v) == JoinDash(w)
    requires (forall i :: 0 <= i < |v| ==> '-' !in v[i]) && forall i :: 0 <= i < |w| ==> '-' !in w[i]
    ensures v == w
    decreases |v|
  {
    var s := JoinDash(v);
    assert |v| > 1 ==> s[|v[0]|] == '-' && s[|v[0]| + 1..] == JoinDash(v[1..]);
    assert |w| > 1 ==> s[|w[0]|] == '-' && s[|w[0]| + 1..] == JoinDash(w[1..]);
    assert s[..|v[0]|] == v[0] && s[..|w[0]|] == w[0];
    if |v| > 1 && |w| > 1 {
      JoinDetermines(v[1..], w[1..]);
      assert v == [v[0]] + v[1..] && w == [w[0]] + w[1..];
    }
  }

  /** The text holds `word` between dashes or ends. */
  ghost predicate HasWord(s: string, word: string) {
    exists words :: JoinDash(words) == s && word in words && forall i :: 0 <= i < |words| ==> '-' !in words[i]
  }

  lemma HasWordIff(s: string, word: string)
    ensures word in SplitDash(s) <==> HasWord(s, word)
  {
    SplitJoins(s);
    forall words | JoinDash(words) == s && word in words && forall i :: 0 <= i < |words| ==> '-' !in words[i]
      ensures words == SplitDash(s)
    {
      JoinDetermines(words, SplitDash(s));
    }
  }

  ghost predicate Holds(s: string, part: string) { exists a, b :: s == a + part + b }

  lemma {:induction false} HoldsIff(s: string, part: string)
    ensures Contains(s, part) <==> Holds(s, part)
  {
    if Contains(s, part) {
      var a, b := ContainsAt(s, part);
    }
    if a, b :| s == a + part + b {
      ContainsPart(a, part, b);
    }
  }

  lemma {:induction false} HoldsLess(s: string, part: string, more: string)
    requires Holds(s, part + more)
    ensures Holds(s, part)
  {
    var a, b :| s == a + (part + more) + b;
    assert s == a + part + (more + b);
  }

  /** What it takes, in lower case, for a text to forbid derivatives. */
  lemma {:induction false} ForbidsText(licence: string)
    ensures NoDerivatives(licence) <==>
      HasWord(Lower(licence), "nd") || Holds(Lower(licence), "no-deriv") || Holds(Lower(licence), "noderiv")
  {
    var l := Lower(licence);
    HasWordIff(l, "nd");
    HoldsIff(l, "no-deriv");
    HoldsIff(l, "noderiv");
    HoldsIff(l, "noderivatives");
    if Contains(l, "noderivatives") {
      assert "noderiv" + "atives" == "noderivatives";
      HoldsLess(l, "noderiv", "atives");
    }
  }

  /** To be non-commercial. */
  lemma {:induction false} NonCommercialText(licence: string)
    ensures NonCommercial(licence) <==>
      HasWord(Lower(licence), "nc") || Holds(Lower(licence), "non-commercial") || Holds(Lower(licence), "noncommercial")
  {
    var l := Lower(licence);
    HasWordIff(l, "nc");
    HoldsIff(l, "non-commercial");
    HoldsIff(l, "noncommercial");
  }

  /** To be commercial: no text that holds "non", wherever, counts as commercial. */
  lemma {:induction false} CommercialText(licence: string)
    ensures Commercial(licence) <==> Holds(Lower(licence), "commercial") && !Holds(Lower(licence), "non")
  {
    HoldsIff(Lower(licence), "commercial");
    HoldsIff(Lower(licence), "non");
  }

  /** Every verdict: the licences that forbid derivatives, in order; else a clash over commercial use; else none. */
  lemma {:induction false} VerdictMeans(licences: seq<string>)
    ensures var nd := ForbiddingOnes(licences);
      && (Judge(licences).ForbidsDerivatives? <==> exists l :: l in licences && NoDerivatives(l))
      && (Judge(licences).ForbidsDerivatives? ==> Judge(licences).licences == nd)
      && (forall x :: x in nd <==> exists l :: l in licences && NoDerivatives(l) && x == Lower(l))
      && (Judge(licences) == MixesCommercialUse <==>
            && (forall l :: l in licences ==> !NoDerivatives(l))
            && (exists l :: l in licences && NonCommercial(l)) && exists l :: l in licences && Commercial(l))
  {
    NoneForbids(licences);
    ForbiddingMembers(licences);
  }

  lemma {:induction false} ForbiddingMembers(licences: seq<string>)
    ensures forall x :: x in ForbiddingOnes(licences) <==> exists l :: l in licences && NoDerivatives(l) && x == Lower(l)
    ensures forall more: string :: ForbiddingOnes([more] + licences)
              == (if NoDerivatives(more) then [Lower(more)] else []) + ForbiddingOnes(licences)
  {
    if licences != [] {
      ForbiddingMembers(licences[1..]);
      assert licences == [licences[0]] + licences[1..];
    }
    forall more: string
      ensures ForbiddingOnes([more] + licences) == (if NoDerivatives(more) then [Lower(more)] else []) + ForbiddingOnes(licences)
    {
      assert ([more] + licences)[1..] == licences;
    }
  }
}
