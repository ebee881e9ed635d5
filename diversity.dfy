/** The diversity score of a post or comment: the summed per-dimension
    population variance of its respondents' profiles, divided by
    (number of dimensions * 4) and scaled by 100. */
module Diversity {
  import opened Profiles
  import opened Engagement
  import opened RealSeqs

  function Coordinate(d: Dim): Profile -> real
  {
    (p: Profile) => p.Get(d)
  }

  /** The values of one dimension across a list of profiles, in order. */
  function Values(ps: seq<Profile>, d: Dim): (xs: seq<real>)
    ensures |xs| == |ps|
    ensures forall i :: 0 <= i < |ps| ==> xs[i] == ps[i].Get(d)
  {
    MapSeq(ps, Coordinate(d))
  }

  /** The reactions whose user exists, in log order. */
  function KnownReactions(rs: seq<Reaction>, users: map<int, User>): (k: seq<Reaction>)
    ensures |k| <= |rs|
    ensures forall i :: 0 <= i < |k| ==> k[i].userId in users
  {
    if rs == [] then []
    else
      (if rs[0].userId in users then [rs[0]] else []) + KnownReactions(rs[1..], users)
  }

  /** Exactly the reactions from known users, each as often as in the log. */
  lemma {:induction false} KnownReactionsContents(rs: seq<Reaction>, users: map<int, User>)
    ensures forall x :: multiset(KnownReactions(rs, users))[x] == if x.userId in users then multiset(rs)[x] else 0
  {
    if rs != [] {
      KnownReactionsContents(rs[1..], users);
      assert rs == [rs[0]] + rs[1..];
    }
  }

  /** The profile of every reaction whose user exists, in log order; a
      reaction from an unknown user is skipped, a user who reacted twice
      appears twice. */
  function Respondents(rs: seq<Reaction>, users: map<int, User>): (ps: seq<Profile>)
    ensures |ps| <= |rs|
  {
    if rs == [] then []
    else (if rs[0].userId in users then [users[rs[0].userId].profile] else []) + Respondents(rs[1..], users)
  }

  /** Exactly one respondent per reaction from a known user: the `i`-th
      respondent is the profile of the `i`-th such reaction's user. */
  lemma {:induction false} RespondentsOfKnown(rs: seq<Reaction>, users: map<int, User>)
    ensures |Respondents(rs, users)| == |KnownReactions(rs, users)|
    ensures forall i :: 0 <= i < |Respondents(rs, users)| ==>
              Respondents(rs, users)[i] == users[KnownReactions(rs, users)[i].userId].profile
  {
    if rs != [] {
      RespondentsOfKnown(rs[1..], users);
      var ps, ks := Respondents(rs, users), KnownReactions(rs, users);
      var ps', ks' := Respondents(rs[1..], users), KnownReactions(rs[1..], users);
      if rs[0].userId in users {
        assert ps == [users[rs[0].userId].profile] + ps';
        assert ks == [rs[0]] + ks';
        assert forall i :: 1 <= i < |ps| ==> ps[i] == ps'[i - 1] && ks[i] == ks'[i - 1];
      } else {
        assert ps == ps' && ks == ks';
      }
    }
  }

  /** Every respondent profile is the current profile of a user who
      reacted: the `i`-th comes from reaction `j`. */
  lemma {:induction false} RespondentSource(rs: seq<Reaction>, users: map<int, User>, i: nat) returns (j: nat)
    requires i < |Respondents(rs, users)|
    ensures j < |rs| && rs[j].userId in users
    ensures Respondents(rs, users)[i] == users[rs[j].userId].profile
  {
    var rest := Respondents(rs[1..], users);
    if rs[0].userId in users && i == 0 {
      j := 0;
    } else {
      var k := if rs[0].userId in users then i - 1 else i;
      assert Respondents(rs, users)[i] == rest[k];
      var j' := RespondentSource(rs[1..], users, k);
      j := j' + 1;
      assert rs[j] == rs[1..][j'];
    }
  }

  /** The sum, over the given dimensions, of the population variance of
      the profiles' values on each. */
  function TotalVariance(ps: seq<Profile>, dims: seq<Dim>): (v: real)
    requires |ps| > 0
    ensures v >= 0.0
  {
    if dims == [] then 0.0
    else Variance(Values(ps, dims[0])) + TotalVariance(ps, dims[1..])
  }

  /** The unrounded diversity score over a target's reactions. */
  function Score(rs: seq<Reaction>, users: map<int, User>): (s: real)
    ensures |rs| < 2 ==> s == 0.0
    ensures |Respondents(rs, users)| < 2 ==> s == 0.0
    ensures s >= 0.0
  {
    if |rs| < 2 then 0.0
    else
      var ps := Respondents(rs, users);
      if |ps| < 2 then 0.0
      else TotalVariance(ps, Dimensions) / (|Dimensions| * 4) as real * 100.0
  }

  // ---------------------------------------------------------------------
  // Properties of the score

  lemma {:induction false} RespondentsConcat(a: seq<Reaction>, b: seq<Reaction>, users: map<int, User>)
    ensures Respondents(a + b, users) == Respondents(a, users) + Respondents(b, users)
  {
    if a == [] {
      assert a + b == b;
    } else {
      assert (a + b)[1..] == a[1..] + b;
      RespondentsConcat(a[1..], b, users);
    }
  }

  /** Permuting the reactions permutes the respondents. */
  lemma {:induction false} RespondentsPermutation(a: seq<Reaction>, b: seq<Reaction>, users: map<int, User>)
    requires multiset(a) == multiset(b)
    ensures multiset(Respondents(a, users)) == multiset(Respondents(b, users))
  {
    if a == [] {
      assert |b| == |multiset(b)| == 0;
    } else {
      var j := PermutationHead(a, b);
      var rest := b[..j] + b[j + 1..];
      RespondentsPermutation(a[1..], rest, users);
      assert b == b[..j] + ([b[j]] + b[j + 1..]);
      RespondentsConcat(b[..j], [b[j]] + b[j + 1..], users);
      RespondentsConcat([b[j]], b[j + 1..], users);
      RespondentsConcat(b[..j], b[j + 1..], users);
      RespondentsConcat([a[0]], a[1..], users);
      assert a == [a[0]] + a[1..];
    }
  }

  lemma {:induction false} TotalVariancePermutation(ps: seq<Profile>, qs: seq<Profile>, dims: seq<Dim>)
    requires |ps| > 0 && multiset(ps) == multiset(qs)
    ensures |qs| > 0 && TotalVariance(ps, dims) == TotalVariance(qs, dims)
  {
    assert |ps| == |multiset(ps)| == |multiset(qs)| == |qs|;
    if dims != [] {
      MapSeqPermutation(ps, qs, Coordinate(dims[0]));
      VariancePermutation(Values(ps, dims[0]), Values(qs, dims[0]));
      TotalVariancePermutation(ps, qs, dims[1..]);
    }
  }

  /** Fewer than two reactions from users who exist give a score of 0. */
  lemma ScoreFewKnown(rs: seq<Reaction>, users: map<int, User>)
    requires |KnownReactions(rs, users)| < 2
    ensures Score(rs, users) == 0.0
  {
    RespondentsOfKnown(rs, users);
  }

  /** The score does not depend on the order in which reactions were logged. */
  lemma ScorePermutation(a: seq<Reaction>, b: seq<Reaction>, users: map<int, User>)
    requires multiset(a) == multiset(b)
    ensures Score(a, users) == Score(b, users)
  {
    assert |a| == |multiset(a)| == |multiset(b)| == |b|;
    RespondentsPermutation(a, b, users);
    var ps, qs := Respondents(a, users), Respondents(b, users);
    assert |ps| == |multiset(ps)| == |multiset(qs)| == |qs|;
    if |ps| >= 2 {
      TotalVariancePermutation(ps, qs, Dimensions);
    }
  }

  lemma {:induction false} TotalVarianceAtMost(ps: seq<Profile>, dims: seq<Dim>)
    requires |ps| > 0
    requires forall i :: 0 <= i < |ps| ==> ps[i].InBounds()
    ensures TotalVariance(ps, dims) <= |dims| as real
  {
    if dims != [] {
      var xs := Values(ps, dims[0]);
      assert forall i :: 0 <= i < |xs| ==> -1.0 <= xs[i] <= 1.0 by {
        forall i | 0 <= i < |xs| ensures -1.0 <= xs[i] <= 1.0 {
          assert xs[i] == ps[i].Get(dims[0]);
        }
      }
      VarianceAtMostOne(xs);
      TotalVarianceAtMost(ps, dims[1..]);
    }
  }

  /** With every profile in [-1, 1] the score lies in [0, 25]: the
      population variance of such values is at most 1, not 4, so the
      normalisation reaches only a quarter of the intended 100. */
  lemma ScoreBounds(rs: seq<Reaction>, users: map<int, User>)
    requires AllInBounds(users)
    ensures 0.0 <= Score(rs, users) <= 25.0
  {
    var ps := Respondents(rs, users);
    if |rs| >= 2 && |ps| >= 2 {
      forall i | 0 <= i < |ps| ensures ps[i].InBounds() {
        var j := RespondentSource(rs, users, i);
      }
      TotalVarianceAtMost(ps, Dimensions);
    }
  }

  lemma {:induction false} TotalVarianceIdentical(ps: seq<Profile>, p: Profile, dims: seq<Dim>)
    requires |ps| > 0
    requires forall i :: 0 <= i < |ps| ==> ps[i] == p
    ensures TotalVariance(ps, dims) == 0.0
  {
    if dims != [] {
      VarianceConstant(Values(ps, dims[0]), p.Get(dims[0]));
      TotalVarianceIdentical(ps, p, dims[1..]);
    }
  }

  /** Respondents who all hold the same profile give a score of 0. */
  lemma ScoreIdenticalProfiles(rs: seq<Reaction>, users: map<int, User>, p: Profile)
    requires forall j :: 0 <= j < |rs| && rs[j].userId in users ==> users[rs[j].userId].profile == p
    ensures Score(rs, users) == 0.0
  {
    var ps := Respondents(rs, users);
    if |rs| >= 2 && |ps| >= 2 {
      forall i | 0 <= i < |ps| ensures ps[i] == p {
        var j := RespondentSource(rs, users, i);
      }
      TotalVarianceIdentical(ps, p, Dimensions);
    }
  }

  predicate IsExtreme(p: Profile)
  {
    forall d :: p.Get(d) == 1.0 || p.Get(d) == -1.0
  }

  function Opposite(p: Profile): (q: Profile)
    ensures forall d :: q.Get(d) == -p.Get(d)
  {
    Profile(-p.leftRight, -p.liberalConservative, -p.zionistAnti)
  }

  lemma SumOfThree(a: real, b: real, c: real)
    ensures Sum([a, b]) == a + b
    ensures Sum([a, b, c]) == a + b + c
  {
    assert [c][1..] == [] && Sum([c]) == c + Sum([]);
    assert [b][1..] == [] && Sum([b]) == b + Sum([]);
    assert [b, c][1..] == [c] && Sum([b, c]) == b + Sum([c]);
    assert [a, b][1..] == [b] && Sum([a, b]) == a + Sum([b]);
    assert [a, b, c][1..] == [b, c] && Sum([a, b, c]) == a + Sum([b, c]);
  }

  lemma VarianceOfOpposites(a: real)
    requires a == 1.0 || a == -1.0
    ensures Variance([a, -a]) == 1.0
  {
    SumOfThree(a, -a, 0.0);
    assert Mean([a, -a]) == 0.0;
    var devs := SquaredDeviations([a, -a], 0.0);
    assert devs == [1.0, 1.0];
    SumOfThree(1.0, 1.0, 0.0);
  }

  lemma VarianceWithCentre(a: real)
    requires a == 1.0 || a == -1.0
    ensures Variance([a, -a, 0.0]) == 2.0 / 3.0
  {
    SumOfThree(a, -a, 0.0);
    assert Mean([a, -a, 0.0]) == 0.0;
    var devs := SquaredDeviations([a, -a, 0.0], 0.0);
    assert devs == [1.0, 1.0, 0.0];
    SumOfThree(1.0, 1.0, 0.0);
  }

  lemma ThreeDimensions(ps: seq<Profile>)
    requires |ps| > 0
    ensures TotalVariance(ps, Dimensions)
         == Variance(Values(ps, LeftRight)) + Variance(Values(ps, LiberalConservative))
            + Variance(Values(ps, ZionistAnti))
  {
    var d1, d2, d3 := Dimensions[1..], Dimensions[2..], Dimensions[3..];
    assert d1 == [LiberalConservative, ZionistAnti] && d1[1..] == d2;
    assert d2 == [ZionistAnti] && d2[1..] == d3 && d3 == [];
    assert TotalVariance(ps, d3) == 0.0;
    assert TotalVariance(ps, d2) == Variance(Values(ps, ZionistAnti)) + TotalVariance(ps, d3);
    assert TotalVariance(ps, d1) == Variance(Values(ps, LiberalConservative)) + TotalVariance(ps, d2);
  }

  /** Two respondents at opposite extremes on every dimension give 25,
      the largest score the formula can produce. */
  lemma ScoreOppositeExtremes(rs: seq<Reaction>, users: map<int, User>)
    requires |rs| == 2 && rs[0].userId in users && rs[1].userId in users
    requires IsExtreme(users[rs[0].userId].profile)
    requires users[rs[1].userId].profile == Opposite(users[rs[0].userId].profile)
    ensures Score(rs, users) == 25.0
  {
    var p, q := users[rs[0].userId].profile, users[rs[1].userId].profile;
    assert rs[1..][1..] == [];
    assert Respondents(rs[1..], users) == [q] + Respondents(rs[1..][1..], users);
    var ps := Respondents(rs, users);
    assert ps == [p, q];
    forall d ensures Variance(Values(ps, d)) == 1.0 {
      assert Values(ps, d) == [p.Get(d), -p.Get(d)];
      VarianceOfOpposites(p.Get(d));
    }
    ThreeDimensions(ps);
  }

  /** Adding a respondent at the centre to two opposite extremes lowers the
      score from 25 to 50/3. */
  lemma ScoreWithCentrist(rs: seq<Reaction>, users: map<int, User>)
    requires |rs| == 3 && rs[0].userId in users && rs[1].userId in users && rs[2].userId in users
    requires IsExtreme(users[rs[0].userId].profile)
    requires users[rs[1].userId].profile == Opposite(users[rs[0].userId].profile)
    requires users[rs[2].userId].profile == Profile(0.0, 0.0, 0.0)
    ensures Score(rs, users) == 50.0 / 3.0
    ensures Score(rs, users) < Score(rs[..2], users)
  {
    var p, q, c := users[rs[0].userId].profile, users[rs[1].userId].profile, users[rs[2].userId].profile;
    assert rs[1..][1..][1..] == [];
    assert Respondents(rs[1..][1..], users) == [c] + Respondents(rs[1..][1..][1..], users);
    assert Respondents(rs[1..], users) == [q] + Respondents(rs[1..][1..], users);
    var ps := Respondents(rs, users);
    assert ps == [p, q, c];
    forall d ensures Variance(Values(ps, d)) == 2.0 / 3.0 {
      assert Values(ps, d) == [p.Get(d), -p.Get(d), 0.0];
      VarianceWithCentre(p.Get(d));
    }
    ThreeDimensions(ps);
    ScoreOppositeExtremes(rs[..2], users);
  }
}
