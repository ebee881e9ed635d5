/** The political space: a fixed, ordered set of three dimensions and a
    profile holding one real value per dimension. */
module Profiles {

  datatype Dim = LeftRight | LiberalConservative | ZionistAnti

  /** The dimensions in the order the score and the drift pass visit them. */
  const Dimensions: seq<Dim> := [LeftRight, LiberalConservative, ZionistAnti]

  /** A user's position; each value is meant to lie in [-1, 1]. */
  datatype Profile = Profile(leftRight: real, liberalConservative: real, zionistAnti: real)
  {
    function Get(d: Dim): real
    {
      match d
      case LeftRight => leftRight
      case LiberalConservative => liberalConservative
      case ZionistAnti => zionistAnti
    }

    /** The profile with dimension `d` overwritten and every other dimension kept. */
    function Set(d: Dim, v: real): (p: Profile)
      ensures p.Get(d) == v
      ensures forall e :: e != d ==> p.Get(e) == Get(e)
    {
      match d
      case LeftRight => this.(leftRight := v)
      case LiberalConservative => this.(liberalConservative := v)
      case ZionistAnti => this.(zionistAnti := v)
    }

    predicate InBounds()
    {
      forall d :: -1.0 <= Get(d) <= 1.0
    }
  }

  /** Two profiles that agree on every dimension are the same profile. */
  lemma ProfileExtensionality(p: Profile, q: Profile)
    requires forall d :: p.Get(d) == q.Get(d)
    ensures p == q
  {
    assert p.Get(LeftRight) == q.Get(LeftRight);
    assert p.Get(LiberalConservative) == q.Get(LiberalConservative);
    assert p.Get(ZionistAnti) == q.Get(ZionistAnti);
  }

  /** Every dimension occurs in `Dimensions`, each exactly once. */
  lemma DimensionsEnumerate()
    ensures forall d :: d in Dimensions
    ensures forall i, j :: 0 <= i < j < |Dimensions| ==> Dimensions[i] != Dimensions[j]
  {
    forall d ensures d in Dimensions {
      match d
      case LeftRight => assert Dimensions[0] == d;
      case LiberalConservative => assert Dimensions[1] == d;
      case ZionistAnti => assert Dimensions[2] == d;
    }
  }
}
