/**
 Keys joined with the ASCII unit separator: the services hash `tenant + US + rest` into their row keys.
 The join is not injective, because nothing keeps the separator out of the parts.
 */
module UnitSeparator {
  const US: char := '\U{001F}'

  function Join(a: string, b: string): string { a + [US] + b }

  /** Neither tenant name continues the other past a separator. */
  predicate Separable(t: string, u: string) {
    !(t + [US] <= u) && !(u + [US] <= t)
  }

  lemma JoinInjective(t: string, x: string, u: string, y: string)
    requires Join(t, x) == Join(u, y) && Separable(t, u)
    ensures t == u && x == y
  {
    var j := Join(t, x);
    assert j[|t|] == US && j[|u|] == US;
    assert t == j[..|t|] && u == j[..|u|] && x == j[|t| + 1..] && y == j[|u| + 1..];
  }

  /** Two different tenants can be given one key exactly when they are not separable. */
  lemma CollisionIff(t: string, u: string)
    requires t != u
    ensures (exists x, y :: Join(t, x) == Join(u, y)) <==> !Separable(t, u)
  {
    if t + [US] <= u {
      assert Join(t, Join(u[|t| + 1..], [])) == Join(u, []);
    }
    if u + [US] <= t {
      assert Join(t, []) == Join(u, Join(t[|u| + 1..], []));
    }
    forall x, y | Join(t, x) == Join(u, y)
      ensures !Separable(t, u)
    {
      if Separable(t, u) {
        JoinInjective(t, x, u, y);
      }
    }
  }

  /** Names without the separator are always separable. */
  lemma PlainNamesSeparable(t: string, u: string)
    requires US !in t && US !in u
    ensures Separable(t, u)
  {
    assert (t + [US])[|t|] == US && (u + [US])[|u|] == US;
  }
}
