/** `select_team_from_tiers`: one team is built by drawing up to two heroes
    without replacement from every tier, T1 first. */
module TeamComposer {
  import opened Heroes
  import opened TierPartition

  /** Positions inside a tier of `size` heroes, none of them twice. */
  predicate DistinctPositions(size: nat, ps: seq<nat>) {
    (forall i :: 0 <= i < |ps| ==> ps[i] < size) && NoDup(ps)
  }

  /** `min(2, len(tier_heroes))`: how many heroes a tier contributes. */
  function DrawCount(tier: seq<Hero>): nat {
    Min(2, |tier|)
  }

  /** The heroes at the given positions of a pool, in draw order. */
  function Pick(pool: seq<Hero>, ps: seq<nat>): (r: seq<Hero>)
    requires forall i :: 0 <= i < |ps| ==> ps[i] < |pool|
    ensures |r| == |ps|
    ensures forall i :: 0 <= i < |ps| ==> r[i] == pool[ps[i]]
  {
    seq(|ps|, i requires 0 <= i < |ps| => pool[ps[i]])
  }

  /** `draws[k]` is a possible outcome of `random.sample` on tier `k`. */
  predicate ValidDraws(tiers: seq<Tier>, draws: seq<seq<nat>>) {
    |draws| == |tiers| &&
    forall k :: 0 <= k < |tiers| ==>
      |draws[k]| == DrawCount(tiers[k].heroes) && DistinctPositions(|tiers[k].heroes|, draws[k])
  }

  /** The team those draws produce: each tier's picks, tier after tier. */
  function Team(tiers: seq<Tier>, draws: seq<seq<nat>>): seq<Hero>
    requires ValidDraws(tiers, draws)
  {
    if tiers == [] then []
    else
      var m := |tiers| - 1;
      Team(tiers[..m], draws[..m]) + Pick(tiers[m].heroes, draws[m])
  }

  /** Total number of heroes the tiers contribute: the sum of `min(2, |tier|)`. */
  function DrawTotal(tiers: seq<Tier>): nat {
    if tiers == [] then 0 else DrawTotal(tiers[..|tiers| - 1]) + DrawCount(tiers[|tiers| - 1].heroes)
  }

  /** `random.sample(pool, count)`: `count` heroes taken from distinct
      positions of the pool. Which positions is left open; any distinct
      in-range choice is a possible outcome. */
  method Sample(pool: seq<Hero>, count: nat) returns (picked: seq<Hero>, positions: seq<nat>)
    requires count <= |pool|
    ensures |positions| == count && DistinctPositions(|pool|, positions)
    ensures picked == Pick(pool, positions)
  {
    var unused: seq<nat> := seq(|pool|, i => i);
    forall p: nat
      ensures p in unused <==> p < |pool|
    {
      if p < |pool| {
        assert unused[p] == p;
      }
    }
    picked, positions := [], [];
    while |positions| < count
      invariant |positions| <= count
      invariant DistinctPositions(|pool|, positions)
      invariant picked == Pick(pool, positions)
      invariant NoDup(unused)
      invariant forall p: nat :: p in unused <==> p < |pool| && p !in positions
      invariant |unused| == |pool| - |positions|
      decreases count - |positions|
    {
      var r :| 0 <= r < |unused|;
      var p := unused[r];
      assert forall q :: q in RemoveAt(unused, r) <==> q in unused && q != p by {
        assert unused == unused[..r] + [p] + unused[r + 1..];
      }
      assert p in unused;
      assert p < |pool| && p !in positions;
      unused := RemoveAt(unused, r);
      positions := positions + [p];
      picked := picked + [pool[p]];
    }
  }

  /** `select_team_from_tiers`: empty tiers are skipped (they draw nothing),
      every other tier contributes `min(2, |tier|)` heroes from distinct
      positions, and the team is the draws joined in tier order. */
  method SelectTeam(tiers: seq<Tier>) returns (team: seq<Hero>, draws: seq<seq<nat>>)
    ensures ValidDraws(tiers, draws)
    ensures team == Team(tiers, draws)
  {
    team, draws := [], [];
    for k := 0 to |tiers|
      invariant ValidDraws(tiers[..k], draws)
      invariant team == Team(tiers[..k], draws)
    {
      var tierHeroes := tiers[k].heroes;
      var selected: seq<Hero>, positions: seq<nat> := [], [];
      if |tierHeroes| > 0 {
        selected, positions := Sample(tierHeroes, Min(2, |tierHeroes|));
      }
      TeamStep(tiers, k, draws, positions);
      team := team + selected;
      draws := draws + [positions];
    }
    assert tiers[..|tiers|] == tiers;
  }

  /** One more tier drawn extends the team by that tier's picks. */
  lemma TeamStep(tiers: seq<Tier>, k: nat, draws: seq<seq<nat>>, ps: seq<nat>)
    requires k < |tiers| && ValidDraws(tiers[..k], draws)
    requires |ps| == DrawCount(tiers[k].heroes) && DistinctPositions(|tiers[k].heroes|, ps)
    ensures ValidDraws(tiers[..k + 1], draws + [ps])
    ensures Team(tiers[..k + 1], draws + [ps]) == Team(tiers[..k], draws) + Pick(tiers[k].heroes, ps)
  {
    assert tiers[..k + 1][..k] == tiers[..k];
    assert (draws + [ps])[..k] == draws;
  }

  /** The team has exactly `DrawTotal` heroes, at most two per tier. */
  lemma {:induction false} TeamSize(tiers: seq<Tier>, draws: seq<seq<nat>>)
    requires ValidDraws(tiers, draws)
    ensures |Team(tiers, draws)| == DrawTotal(tiers) <= 2 * |tiers|
  {
    if tiers != [] {
      var m := |tiers| - 1;
      TeamSize(tiers[..m], draws[..m]);
    }
  }

  /** Tiers of two or more heroes contribute two heroes each. */
  lemma {:induction false} FullTiers(tiers: seq<Tier>)
    requires forall k :: 0 <= k < |tiers| ==> |tiers[k].heroes| >= 2
    ensures DrawTotal(tiers) == 2 * |tiers|
  {
    if tiers != [] {
      FullTiers(tiers[..|tiers| - 1]);
    }
  }

  /** Every team member comes from one of the tiers. */
  lemma {:induction false} TeamFromTiers(tiers: seq<Tier>, draws: seq<seq<nat>>)
    requires ValidDraws(tiers, draws)
    ensures forall x :: x in Team(tiers, draws) ==>
              x in Members(tiers) && exists k :: 0 <= k < |tiers| && x in tiers[k].heroes
  {
    if tiers != [] {
      var m := |tiers| - 1;
      TeamFromTiers(tiers[..m], draws[..m]);
      forall x | x in Team(tiers, draws)
        ensures x in Members(tiers) && exists k :: 0 <= k < |tiers| && x in tiers[k].heroes
      {
        if x in Team(tiers[..m], draws[..m]) {
          var k :| 0 <= k < m && x in tiers[..m][k].heroes;
          assert tiers[..m][k] == tiers[k];
        } else {
          assert x in tiers[m].heroes;
        }
      }
    }
  }

  /** Distinct positions of a list without repeats give distinct heroes. */
  lemma PickNoDup(pool: seq<Hero>, ps: seq<nat>)
    requires DistinctPositions(|pool|, ps) && NoDup(pool)
    ensures NoDup(Pick(pool, ps))
  {
  }

  /** When no hero appears twice across the tiers, none appears twice in a team. */
  lemma {:induction false} TeamNoDup(tiers: seq<Tier>, draws: seq<seq<nat>>)
    requires ValidDraws(tiers, draws)
    requires NoDup(Members(tiers))
    ensures NoDup(Team(tiers, draws))
  {
    if tiers != [] {
      var m := |tiers| - 1;
      var front, last := Team(tiers[..m], draws[..m]), Pick(tiers[m].heroes, draws[m]);
      NoDupConcat(Members(tiers[..m]), tiers[m].heroes);
      TeamNoDup(tiers[..m], draws[..m]);
      PickNoDup(tiers[m].heroes, draws[m]);
      TeamFromTiers(tiers[..m], draws[..m]);
      NoDupConcat(front, last);
    }
  }

  /** Teams drawn from the five tiers of a roster: at most ten heroes, exactly
      ten once the roster has ten or more, and no hero twice when the roster
      has no hero twice. */
  lemma PartitionTeam(heroes: seq<Hero>, draws: seq<seq<nat>>)
    requires ValidDraws(Partition(heroes), draws)
    ensures |Team(Partition(heroes), draws)| <= 10
    ensures |heroes| >= 10 ==> |Team(Partition(heroes), draws)| == 10
    ensures NoDup(heroes) ==> NoDup(Team(Partition(heroes), draws))
  {
    var ts := Partition(heroes);
    TeamSize(ts, draws);
    if |heroes| >= 10 {
      PartitionShape(heroes);
      FullTiers(ts);
    }
    if NoDup(heroes) {
      PartitionCovers(heroes);
      TeamNoDup(ts, draws);
    }
  }
}
