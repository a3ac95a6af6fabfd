/**
 * XP and level arithmetic of the gamification layer (src/lib/gamification/xp.ts).
 *
 * The level curve `floor(50 * (L - 1)^1.5)` is stated exactly as the integer
 * square root of `2500 * (L - 1)^3`, which is the same real number.
 */
module Xp {
  import opened Wrappers
  import Tiers

  /** Largest `r` with `r * r <= n`, computed digit pair by digit pair. */
  function ISqrt(n: nat): (r: nat)
    ensures r * r <= n < (r + 1) * (r + 1)
  {
    if n < 4 then (if n == 0 then 0 else 1)
    else
      var t := ISqrt(n / 4);
      ISqrtStep(n, t);
      var s := 2 * t;
      if (s + 1) * (s + 1) <= n then s + 1 else s
  }

  /** Doubling the root of `n / 4` gives a root of `n` to within one. */
  lemma ISqrtStep(n: nat, t: nat)
    requires t * t <= n / 4 < (t + 1) * (t + 1)
    ensures (2 * t) * (2 * t) <= n < (2 * t + 2) * (2 * t + 2)
  {
    var q := n / 4;
    var a := t * t;
    var b := (t + 1) * (t + 1);
    assert (2 * t) * (2 * t) == 4 * a;
    assert (2 * t + 2) * (2 * t + 2) == 4 * b;
    assert 4 * q <= n < 4 * q + 4;
  }

  lemma SquareMonotone(a: nat, b: nat)
    requires a <= b
    ensures a * a <= b * b
  {
    assert a * a <= a * b <= b * b;
  }

  /** Any `m` whose square fits below `n` is at most `ISqrt(n)`. */
  lemma ISqrtIsGreatest(m: nat, n: nat)
    requires m * m <= n
    ensures m <= ISqrt(n)
  {
    var r := ISqrt(n);
    if m > r {
      SquareMonotone(r + 1, m);
    }
  }

  function Cube(k: int): int { k * k * k }

  /** XP needed to reach `level`; every level at or below 1 needs none. */
  function XpForLevel(level: int): (r: nat)
    ensures level <= 1 ==> r == 0
    ensures level > 1 ==> r * r <= 2500 * Cube(level - 1) < (r + 1) * (r + 1)
  {
    if level <= 1 then 0
    else
      assert Cube(level - 1) >= 0;
      ISqrt(2500 * Cube(level - 1))
  }

  lemma MulLeftMonotone(c: int, a: int, b: int)
    requires c >= 0 && a <= b
    ensures c * a <= c * b
  {
    assert c * b - c * a == c * (b - a);
  }

  /** `sqrt(2500 k^3) <= 50 k^2` once `k >= 1`. */
  lemma CubeBelowSquareOfSquare(k: int)
    requires k >= 1
    ensures 2500 * Cube(k) <= (50 * (k * k)) * (50 * (k * k))
  {
    var kk := k * k;
    MulLeftMonotone(k, 1, k);
    MulLeftMonotone(kk, k, kk);
    assert Cube(k) == kk * k;
    assert (50 * kk) * (50 * kk) == 2500 * (kk * kk);
  }

  lemma CubeStep(k: int)
    ensures Cube(k + 1) == Cube(k) + 3 * (k * k) + 3 * k + 1
  {
  }

  /** Squares below a square come from smaller roots. */
  lemma RootBelow(a: nat, m: nat)
    requires a * a <= m * m
    ensures a <= m
  {
    if a > m {
      SquareMonotone(m + 1, a);
    }
  }

  lemma SquareShift(a: int)
    ensures (a + 50) * (a + 50) == a * a + 100 * a + 2500
  {
  }

  /** The linear step of the gap bound, with the products named. */
  lemma GapArithmetic(sq: int, a: int, c: int, kk: int, k: int)
    requires sq <= 2500 * c && a <= 50 * kk && 1 <= k <= kk
    ensures sq + 100 * a + 2500 <= 2500 * (c + 3 * kk + 3 * k + 1)
  {
  }

  /** Consecutive thresholds are at least 50 XP apart from level 1 on. */
  lemma XpGap(level: int)
    requires level >= 1
    ensures XpForLevel(level + 1) >= XpForLevel(level) + 50
  {
    var k := level - 1;
    var a := XpForLevel(level);
    if k == 0 {
      assert Cube(1) == 1;
      ISqrtIsGreatest(50, 2500 * Cube(1));
    } else {
      var kk := k * k;
      CubeBelowSquareOfSquare(k);
      assert a * a <= (50 * kk) * (50 * kk);
      RootBelow(a, 50 * kk);
      SquareShift(a);
      CubeStep(k);
      MulLeftMonotone(k, 1, k);
      GapArithmetic(a * a, a, Cube(k), kk, k);
      assert (a + 50) * (a + 50) <= 2500 * Cube(k + 1);
      ISqrtIsGreatest(a + 50, 2500 * Cube(k + 1));
    }
  }

  /** The first thresholds: 0, 50, 141 and 259 XP for levels 1 to 4. */
  lemma XpForFirstLevels()
    ensures XpForLevel(1) == 0 && XpForLevel(2) == 50
    ensures XpForLevel(3) == 141 && XpForLevel(4) == 259
  {
    assert Cube(1) == 1 && Cube(2) == 8 && Cube(3) == 27;
    ISqrtIsGreatest(50, 2500);
    ISqrtIsGreatest(141, 20000);
    ISqrtIsGreatest(259, 67500);
    if ISqrt(2500) > 50 { SquareMonotone(51, ISqrt(2500)); }
    if ISqrt(20000) > 141 { SquareMonotone(142, ISqrt(20000)); }
    if ISqrt(67500) > 259 { SquareMonotone(260, ISqrt(67500)); }
  }

  /** From level 1 on the curve is strictly increasing. */
  lemma {:induction false} XpStrictlyIncreasing(lo: int, hi: int)
    requires 1 <= lo < hi
    ensures XpForLevel(lo) < XpForLevel(hi)
    decreases hi - lo
  {
    XpGap(hi - 1);
    if lo < hi - 1 {
      XpStrictlyIncreasing(lo, hi - 1);
    }
  }

  lemma XpMonotone(lo: int, hi: int)
    requires 1 <= lo <= hi
    ensures XpForLevel(lo) <= XpForLevel(hi)
  {
    if lo < hi { XpStrictlyIncreasing(lo, hi); }
  }

  /** Reaching `level` costs at least 50 XP per level above the first. */
  lemma {:induction false} XpAtLeastLinear(level: int)
    requires level >= 1
    ensures XpForLevel(level) >= 50 * (level - 1)
    decreases level
  {
    if level > 1 {
      XpAtLeastLinear(level - 1);
      XpGap(level - 1);
    }
  }

  /** The search `levelFromXp` performs, started at `level`. */
  function LevelSearch(level: int, xp: int): (r: int)
    requires level >= 1
    ensures r >= level
    ensures xp < XpForLevel(r + 1)
    ensures r == level || XpForLevel(r) <= xp
    decreases xp - level
  {
    if XpForLevel(level + 1) <= xp then
      XpAtLeastLinear(level + 1);
      LevelSearch(level + 1, xp)
    else level
  }

  /** The level reached with `xp` points. */
  function LevelOf(xp: int): (level: int)
    ensures level >= 1
    ensures xp < XpForLevel(level + 1)
    ensures xp >= 0 ==> XpForLevel(level) <= xp
  {
    LevelSearch(1, xp)
  }

  /** The level is the only one whose threshold band contains `xp`. */
  lemma LevelOfUnique(level: int, xp: int)
    requires level >= 1
    requires xp < XpForLevel(level + 1)
    requires level == 1 || XpForLevel(level) <= xp
    ensures LevelOf(xp) == level
  {
    var m := LevelOf(xp);
    if m < level {
      XpMonotone(m + 1, level);
    } else if m > level {
      XpMonotone(level + 1, m);
    }
  }

  /** `levelFromXp(xpForLevel(L)) == L` at every exact threshold. */
  lemma LevelOfThreshold(level: int)
    requires level >= 1
    ensures LevelOf(XpForLevel(level)) == level
  {
    XpGap(level);
    LevelOfUnique(level, XpForLevel(level));
  }

  /** More XP never means a lower level. */
  lemma LevelOfMonotone(xp1: int, xp2: int)
    requires xp1 <= xp2
    ensures LevelOf(xp1) <= LevelOf(xp2)
  {
    var m1, m2 := LevelOf(xp1), LevelOf(xp2);
    if m1 > m2 {
      XpMonotone(m2 + 1, m1);
    }
  }

  /** `levelFromXp`: walk up the curve while the next threshold is reached. */
  method LevelFromXp(xp: int) returns (level: int)
    ensures level == LevelOf(xp)
    ensures level >= 1 && xp < XpForLevel(level + 1)
  {
    level := 1;
    while XpForLevel(level + 1) <= xp
      invariant level >= 1
      invariant level == 1 || XpForLevel(level) <= xp
      decreases xp - level
    {
      XpAtLeastLinear(level + 1);
      level := level + 1;
    }
    LevelOfUnique(level, xp);
  }

  /**
   * Percentage of the way from the current level's threshold to the next one,
   * rounded down.
   */
  function LevelProgress(xp: int): (p: int)
    ensures xp >= 0 ==> 0 <= p <= 99
    ensures var cur := XpForLevel(LevelOf(xp));
            var next := XpForLevel(LevelOf(xp) + 1);
            next > cur && IsFloorPercent(p, xp - cur, next - cur)
  {
    var level := LevelOf(xp);
    XpGap(level);
    ProgressInBand(xp, XpForLevel(level), XpForLevel(level + 1))
  }

  /** The progress once the current level's band from `cur` up to `next` is known. */
  function ProgressInBand(xp: int, cur: int, next: int): (p: int)
    requires cur <= next
    ensures next > cur ==> IsFloorPercent(p, xp - cur, next - cur)
    ensures cur <= xp < next ==> 0 <= p <= 99
  {
    if next == cur then 100 else Percent(xp - cur, next - cur)
  }

  /** `p` is `100 * part / whole` rounded down. */
  predicate IsFloorPercent(p: int, part: int, whole: int)
  {
    p * whole <= 100 * part < (p + 1) * whole
  }

  /** The rounded-down percentage `100 * part / whole` and its range. */
  function Percent(part: int, whole: int): (p: int)
    requires whole > 0
    ensures IsFloorPercent(p, part, whole)
    ensures 0 <= part < whole ==> 0 <= p <= 99
  {
    PercentFacts(part, whole);
    (100 * part) / whole
  }

  lemma PercentFacts(part: int, whole: int)
    requires whole > 0
    ensures var p := (100 * part) / whole;
      p * whole <= 100 * part < (p + 1) * whole &&
      (0 <= part < whole ==> 0 <= p <= 99)
  {
    FloorDivision(100 * part, whole);
    if 0 <= part < whole {
      PercentBelowHundred(100 * part, whole);
    }
  }

  /** Euclidean division brackets the dividend between two multiples. */
  lemma FloorDivision(q: int, w: int)
    requires w > 0
    ensures (q / w) * w <= q < (q / w + 1) * w
  {
    var p := q / w;
    assert q == p * w + q % w;
    assert (p + 1) * w == p * w + w;
  }

  lemma PercentBelowHundred(q: int, w: int)
    requires w > 0 && 0 <= q < 100 * w
    ensures 0 <= q / w <= 99
  {
    var p := q / w;
    FloorDivision(q, w);
    if p >= 100 {
      MulLeftMonotone(w, 100, p);
    }
  }

  /** Base XP of one conversation, from its overall score. */
  function XpFromScore(score: int): (xp: int)
    ensures 10 <= xp <= 50 && xp % 10 == 0
    ensures xp == 10 <==> score < 50
  {
    if score >= 90 then 50
    else if score >= 80 then 40
    else if score >= 70 then 30
    else if score >= 50 then 20
    else 10
  }

  /** Score brackets as (lower bound, XP), highest first. */
  const ScoreTiers: seq<(int, int)> := [(90, 50), (80, 40), (70, 30), (50, 20)]

  /** The if-chain is the lookup of the score table, with 10 below 50. */
  lemma XpFromScoreIsTableLookup(score: int)
    ensures XpFromScore(score) == Tiers.HighestTier(ScoreTiers, score, 10)
  {
    var t := ScoreTiers;
    if score >= 90 { assert Tiers.InBracket(t, 0, score); }
    else if score >= 80 { assert Tiers.InBracket(t, 1, score); }
    else if score >= 70 { assert Tiers.InBracket(t, 2, score); }
    else if score >= 50 { assert Tiers.InBracket(t, 3, score); }
  }

  /** A better score never earns less base XP. */
  lemma XpFromScoreMonotone(s1: int, s2: int)
    requires s1 <= s2
    ensures XpFromScore(s1) <= XpFromScore(s2)
  {
  }

  datatype Difficulty = Easy | Medium | Hard

  /** The optional bonuses of `calculateTotalXp`; an absent `streakDays` is 0. */
  datatype XpOptions = XpOptions(
    isFirstConversation: bool,
    streakDays: int,
    difficulty: Option<Difficulty>)

  /** A flat +25 for the first conversation. */
  function FirstConversationBonus(total: int, isFirst: bool): (r: int)
    ensures r - total == (if isFirst then 25 else 0)
  {
    if isFirst then total + 25 else total
  }

  /**
   * `floor(total * (1 + min(days * 0.05, 0.5)))` for a positive streak:
   * 5% per day, capped at 50% from 10 days on.
   */
  function StreakBonus(total: int, days: int): (r: int)
    ensures days <= 0 ==> r == total
    ensures days > 0 ==>
      var pct := if days < 10 then days else 10;
      r * 20 <= total * (20 + pct) < (r + 1) * 20
    ensures total >= 0 ==> total <= r <= total + total / 2
  {
    if days > 0 then
      var capped := if days < 10 then days else 10;
      (total * (20 + capped)) / 20
    else total
  }

  /** `floor(total * 1.5)` when hard, `floor(total * 1.25)` when medium. */
  function DifficultyBonus(total: int, difficulty: Option<Difficulty>): (r: int)
    ensures difficulty == Some(Hard) ==> 2 * r <= 3 * total < 2 * r + 2
    ensures difficulty == Some(Medium) ==> 4 * r <= 5 * total < 4 * r + 4
    ensures difficulty !in {Some(Hard), Some(Medium)} ==> r == total
    ensures total >= 0 ==> total <= r
  {
    match difficulty
    case Some(Hard) => (3 * total) / 2
    case Some(Medium) => (5 * total) / 4
    case _ => total
  }

  /** XP of one conversation: the bonuses in their fixed order. */
  function TotalXp(baseXp: int, options: XpOptions): (r: int)
    ensures baseXp >= 0 ==> r >= baseXp
  {
    var withFirst := FirstConversationBonus(baseXp, options.isFirstConversation);
    var withStreak := StreakBonus(withFirst, options.streakDays);
    DifficultyBonus(withStreak, options.difficulty)
  }

  /** `calculateTotalXp`: the running total reassigned step by step. */
  method CalculateTotalXp(baseXp: int, options: XpOptions) returns (total: int)
    ensures total == TotalXp(baseXp, options)
    ensures baseXp >= 0 ==> total >= baseXp
  {
    total := baseXp;
    if options.isFirstConversation {
      total := total + 25;
    }
    if options.streakDays > 0 {
      var capped := if options.streakDays < 10 then options.streakDays else 10;
      total := (total * (20 + capped)) / 20;
    }
    if options.difficulty == Some(Hard) {
      total := (3 * total) / 2;
    } else if options.difficulty == Some(Medium) {
      total := (5 * total) / 4;
    }
  }

  /** 50 base, first conversation, 10-day streak, hard: 75, then 112, then 168. */
  lemma TotalXpComposition()
    ensures TotalXp(50, XpOptions(true, 10, Some(Hard))) == 168
    ensures TotalXp(50, XpOptions(false, 0, Some(Easy))) == 50
    ensures TotalXp(10, XpOptions(true, 0, None)) == 35
  {
  }

  /** Level titles as (minimum level, title), highest first. */
  const LevelTitleTiers: seq<(int, string)> := [
    (50, "Communication Legend"),
    (40, "Master Negotiator"),
    (30, "Senior Communicator"),
    (20, "Skilled Professional"),
    (15, "Rising Star"),
    (10, "Confident Speaker"),
    (5, "Apprentice")
  ]

  /** The title of the highest tier not above `level`; "Beginner" below 5. */
  function LevelTitle(level: int): (title: string)
    ensures title == "Beginner" <==> level < 5
  {
    if level >= 50 then "Communication Legend"
    else if level >= 40 then "Master Negotiator"
    else if level >= 30 then "Senior Communicator"
    else if level >= 20 then "Skilled Professional"
    else if level >= 15 then "Rising Star"
    else if level >= 10 then "Confident Speaker"
    else if level >= 5 then "Apprentice"
    else "Beginner"
  }

  lemma LevelTitleIsTableLookup(level: int)
    ensures LevelTitle(level) == Tiers.HighestTier(LevelTitleTiers, level, "Beginner")
  {
    var t := LevelTitleTiers;
    if level >= 50 { assert Tiers.InBracket(t, 0, level); }
    else if level >= 40 { assert Tiers.InBracket(t, 1, level); }
    else if level >= 30 { assert Tiers.InBracket(t, 2, level); }
    else if level >= 20 { assert Tiers.InBracket(t, 3, level); }
    else if level >= 15 { assert Tiers.InBracket(t, 4, level); }
    else if level >= 10 { assert Tiers.InBracket(t, 5, level); }
    else if level >= 5 { assert Tiers.InBracket(t, 6, level); }
  }
}
