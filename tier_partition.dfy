/** `divide_heroes_into_tiers`: the eligible roster, best rank first, is cut
    into five contiguous bands T1..T5. */
module TierPartition {
  import opened Heroes

  /** One entry of the `tiers` dict: its key and its slice of the roster. */
  datatype Tier = Tier(key: string, heroes: seq<Hero>)

  const TierCount: nat := 5

  /** The dict key `f"T{tier}"` for a one-digit tier number. */
  function Label(k: nat): (r: string)
    requires 1 <= k <= 9
    ensures |r| == 2 && r[0] == 'T' && r[1] as int - '0' as int == k
  {
    ['T', ('0' as int + k) as char]
  }

  /** Python's `s[lo:hi]` for non-negative bounds: both bounds are clamped to
      the length, and the slice is empty once `lo >= hi`. */
  function PySlice<T>(s: seq<T>, lo: nat, hi: nat): (r: seq<T>)
    ensures |r| == if lo < hi && lo < |s| then Min(hi, |s|) - lo else 0
    ensures forall i :: 0 <= i < |r| ==> r[i] == s[lo + i]
  {
    if lo >= |s| || hi <= lo then [] else s[lo..Min(hi, |s|)]
  }

  /** The slot count the source asks for tier `k` (1..5) of `n` heroes: the
      base share, one more for T5 whenever there is a remainder, and one more
      for each of the first `n % 5` tiers below T5. */
  function Requested(n: nat, k: nat): (r: nat)
    ensures r == Size(n, k) + (if k == 5 && n % 5 > 0 then 1 else 0)
  {
    var base, remainder := n / 5, n % 5;
    var count := base + (if k == 5 && remainder > 0 then 1 else 0);
    if k <= remainder && k < 5 then count + 1 else count
  }

  /** The number of heroes tier `k` (1..5) really receives. */
  function Size(n: nat, k: nat): nat {
    n / 5 + (if k <= n % 5 then 1 else 0)
  }

  /** The index at which the tier after the first `k` tiers begins. */
  function Start(n: nat, k: nat): nat
    requires k <= TierCount
  {
    if k == 0 then 0 else Start(n, k - 1) + Size(n, k)
  }

  /** The first `k` tiers hold `k` base shares and one extra hero for each
      of them among the first `n % 5`. */
  lemma {:induction false} StartClosed(n: nat, k: nat)
    requires k <= TierCount
    ensures Start(n, k) == k * (n / 5) + Min(k, n % 5)
  {
    if k > 0 {
      StartClosed(n, k - 1);
    }
  }

  lemma {:induction false} StartMonotone(n: nat, j: nat, k: nat)
    requires j <= k <= TierCount
    ensures Start(n, j) <= Start(n, k)
    decreases k - j
  {
    if j < k {
      StartMonotone(n, j, k - 1);
    }
  }

  lemma StartBounds(n: nat, k: nat)
    requires k <= TierCount
    ensures Start(n, k) <= Start(n, TierCount) == n
  {
    StartClosed(n, TierCount);
    StartMonotone(n, k, TierCount);
  }

  /** Tier `k` (0-based) of the closed-form partition. */
  function TierSlice(heroes: seq<Hero>, k: nat): (r: seq<Hero>)
    requires k < TierCount
    ensures |r| == Size(|heroes|, k + 1)
  {
    StartBounds(|heroes|, k + 1);
    heroes[Start(|heroes|, k)..Start(|heroes|, k + 1)]
  }

  /** The partition as a closed form: tier k+1 is the slice of Size(n, k+1)
      heroes that begins at Start(n, k). */
  function Partition(heroes: seq<Hero>): (ts: seq<Tier>)
    ensures |ts| == TierCount
  {
    seq(TierCount, k requires 0 <= k < TierCount => Tier(Label(k + 1), TierSlice(heroes, k)))
  }

  /** All heroes of a list of tiers, tier after tier. */
  function Members(ts: seq<Tier>): seq<Hero> {
    if ts == [] then [] else Members(ts[..|ts| - 1]) + ts[|ts| - 1].heroes
  }

  /** Slicing `Requested` counts from a running start index yields exactly the
      closed-form tiers: for T1..T4 the requested count is the size, and T5's
      surplus slot lies past the end of the roster and is cut off. */
  lemma RequestedSlice(heroes: seq<Hero>, k: nat)
    requires 1 <= k <= TierCount
    ensures PySlice(heroes, Start(|heroes|, k - 1), Start(|heroes|, k - 1) + Requested(|heroes|, k))
            == TierSlice(heroes, k - 1)
  {
    var n := |heroes|;
    StartBounds(n, k);
    var lo, hi := Start(n, k - 1), Start(n, k - 1) + Requested(n, k);
    StartClosed(n, k - 1);
    if lo < n {
      assert Min(hi, n) == Start(n, k);
    }
  }

  /** `divide_heroes_into_tiers`: one pass over T1..T5 that slices
      `Requested` heroes from where the previous tier ended. The result is
      exactly the closed form, and the tiers together are the roster. */
  method DivideIntoTiers(heroes: seq<Hero>) returns (tiers: seq<Tier>)
    ensures tiers == Partition(heroes)
    ensures Members(tiers) == heroes
  {
    var n := |heroes|;
    tiers := [];
    var start: nat := 0;
    for tier := 1 to 6
      invariant |tiers| == tier - 1
      invariant tier <= 5 ==> start == Start(n, tier - 1)
      invariant tiers == Partition(heroes)[..tier - 1]
    {
      var count := n / 5 + (if tier == 5 && n % 5 > 0 then 1 else 0);
      if tier <= n % 5 && tier < 5 {
        count := count + 1;
      }
      var end := start + count;
      RequestedSlice(heroes, tier);
      PartitionStep(heroes, tier - 1);
      tiers := tiers + [Tier(Label(tier), PySlice(heroes, start, end))];
      start := end;
    }
    assert tiers == Partition(heroes);
    PartitionCovers(heroes);
  }

  /** The first `k + 1` tiers are the first `k` followed by tier `k + 1`. */
  lemma PartitionStep(heroes: seq<Hero>, k: nat)
    requires k < TierCount
    ensures Partition(heroes)[..k + 1] == Partition(heroes)[..k] + [Tier(Label(k + 1), TierSlice(heroes, k))]
  {
  }

  lemma {:induction false} MembersPrefix(heroes: seq<Hero>, k: nat)
    requires k <= TierCount
    ensures Start(|heroes|, k) <= |heroes|
    ensures Members(Partition(heroes)[..k]) == heroes[..Start(|heroes|, k)]
  {
    var n := |heroes|;
    var ts := Partition(heroes);
    StartBounds(n, k);
    if k > 0 {
      MembersPrefix(heroes, k - 1);
      assert ts[..k][..k - 1] == ts[..k - 1];
      StartBounds(n, k - 1);
      assert heroes[..Start(n, k)] == heroes[..Start(n, k - 1)] + TierSlice(heroes, k - 1);
    }
  }

  /** Nothing is skipped, repeated or reordered: T1 ++ ... ++ T5 is the roster. */
  lemma PartitionCovers(heroes: seq<Hero>)
    ensures Members(Partition(heroes)) == heroes
  {
    MembersPrefix(heroes, TierCount);
    StartBounds(|heroes|, TierCount);
    assert Partition(heroes)[..TierCount] == Partition(heroes);
  }

  /** The keys are T1..T5 in this order, the first `n % 5` tiers hold one
      hero more than the base share `n / 5`, and T5 holds exactly the base
      share although one more slot was requested for it. */
  lemma PartitionShape(heroes: seq<Hero>)
    ensures var ts := Partition(heroes);
            var n := |heroes|;
            |ts| == 5 &&
            ts[0].key == "T1" && ts[1].key == "T2" && ts[2].key == "T3" &&
            ts[3].key == "T4" && ts[4].key == "T5" &&
            (forall k :: 0 <= k < 4 ==> |ts[k].heroes| == n / 5 + (if k < n % 5 then 1 else 0)) &&
            |ts[4].heroes| == n / 5 &&
            (n % 5 > 0 ==> Requested(n, 5) == n / 5 + 1)
  {
  }

  /** The requested counts over-allocate by one slot whenever `n % 5 > 0`. */
  lemma RequestedTotal(n: nat)
    ensures Requested(n, 1) + Requested(n, 2) + Requested(n, 3) + Requested(n, 4) + Requested(n, 5)
            == n + (if n % 5 > 0 then 1 else 0)
  {
  }

  /** Twelve heroes: slots 3, 3, 2, 2, 3 are requested (13 in all), and the
      tiers hold heroes 0..2, 3..5, 6..7, 8..9 and 10..11. */
  lemma TwelveHeroes(heroes: seq<Hero>)
    requires |heroes| == 12
    ensures Requested(12, 5) == 3
    ensures Partition(heroes)[0].heroes == heroes[0..3]
    ensures Partition(heroes)[1].heroes == heroes[3..6]
    ensures Partition(heroes)[2].heroes == heroes[6..8]
    ensures Partition(heroes)[3].heroes == heroes[8..10]
    ensures Partition(heroes)[4].heroes == heroes[10..12]
  {
  }

  /** The `i`-th hero of tier `k+1` is the roster's hero at `Start(n, k) + i`. */
  lemma PartitionAt(heroes: seq<Hero>, k: nat, i: nat)
    requires k < TierCount && i < |Partition(heroes)[k].heroes|
    ensures Start(|heroes|, k) + i < Start(|heroes|, k + 1) <= |heroes|
    ensures Partition(heroes)[k].heroes[i] == heroes[Start(|heroes|, k) + i]
  {
    StartBounds(|heroes|, k + 1);
    assert Partition(heroes)[k].heroes == TierSlice(heroes, k);
  }

  /** On a rank-ordered roster every hero of a better tier outranks every hero
      of a worse one. */
  lemma PartitionRankOrder(heroes: seq<Hero>, a: nat, b: nat, i: nat, j: nat)
    requires RanksAscending(heroes)
    requires a < b < TierCount
    requires i < |Partition(heroes)[a].heroes| && j < |Partition(heroes)[b].heroes|
    ensures Partition(heroes)[a].heroes[i].rank < Partition(heroes)[b].heroes[j].rank
  {
    var n := |heroes|;
    PartitionAt(heroes, a, i);
    PartitionAt(heroes, b, j);
    StartMonotone(n, a + 1, b);
    var x, y := Start(n, a) + i, Start(n, b) + j;
    assert heroes[x].rank < heroes[y].rank;
  }
}
