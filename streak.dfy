/** The longest run of consecutive prizeless records per player, taken in
    date order. */
module Streak {
  import opened GameData
  import opened Folds
  import opened Statistics

  // ---------------------------------------------------------------------
  // Stable sort by date

  predicate SortedByDate(s: seq<Game>) {
    forall i, j :: 0 <= i < j < |s| ==> DateLeq(s[i].date, s[j].date)
  }

  /** Inserts `g` after every record dated no later than it. */
  function Insert(t: seq<Game>, g: Game): (r: seq<Game>)
    ensures |r| == |t| + 1
    ensures multiset(r) == multiset(t) + multiset{g}
  {
    if t == [] then [g]
    else if DateLeq(t[|t| - 1].date, g.date) then t + [g]
    else
      var t' := t[..|t| - 1];
      assert t == t' + [t[|t| - 1]];
      Insert(t', g) + [t[|t| - 1]]
  }

  /** The order `sort((a, b) => time(a.date) - time(b.date))` leaves a list
      in: oldest first, and records of the same date in their original
      order, since the sort is stable. */
  function SortByDate(s: seq<Game>): (r: seq<Game>)
    ensures |r| == |s|
    ensures multiset(r) == multiset(s)
  {
    if s == [] then []
    else
      var n := |s| - 1;
      assert s == s[..n] + [s[n]];
      Insert(SortByDate(s[..n]), s[n])
  }

  /** Inserting into a sorted list keeps it sorted. */
  lemma {:induction false} InsertSorted(t: seq<Game>, g: Game)
    requires SortedByDate(t)
    ensures SortedByDate(Insert(t, g))
  {
    if t == [] {
    } else if DateLeq(t[|t| - 1].date, g.date) {
      assert Insert(t, g) == t + [g];
      SortedSnoc(t, g);
    } else {
      var n := |t| - 1;
      var last := t[n];
      var t' := t[..n];
      InsertSorted(t', g);
      forall i | 0 <= i < n
        ensures DateLeq(t'[i].date, last.date)
      {
        assert t'[i] == t[i];
      }
      InsertBelow(t', g, last.date);
      var u := Insert(t', g);
      SortedSnoc(u, last);
      assert Insert(t, g) == u + [last];
    }
  }

  /** Inserting a record dated no later than `top` into records dated no
      later than `top` leaves them all dated no later than `top`. */
  lemma {:induction false} InsertBelow(t: seq<Game>, g: Game, top: Date)
    requires forall i :: 0 <= i < |t| ==> DateLeq(t[i].date, top)
    requires DateLeq(g.date, top)
    ensures forall i :: 0 <= i < |Insert(t, g)| ==> DateLeq(Insert(t, g)[i].date, top)
  {
    if t == [] {
      assert Insert(t, g) == [g];
    } else if DateLeq(t[|t| - 1].date, g.date) {
      assert Insert(t, g) == t + [g];
    } else {
      var n := |t| - 1;
      var t' := t[..n];
      assert forall i :: 0 <= i < n ==> t'[i] == t[i];
      InsertBelow(t', g, top);
      assert Insert(t, g) == Insert(t', g) + [t[n]];
    }
  }

  /** A record dated no earlier than every record of a sorted list extends
      it sorted. */
  lemma SortedSnoc(u: seq<Game>, x: Game)
    requires SortedByDate(u)
    requires forall i :: 0 <= i < |u| ==> DateLeq(u[i].date, x.date)
    ensures SortedByDate(u + [x])
  {
    forall i, j | 0 <= i < j < |u| + 1
      ensures DateLeq((u + [x])[i].date, (u + [x])[j].date)
    {
      assert (u + [x])[i] == u[i];
    }
  }

  lemma {:induction false} SortByDateSorted(s: seq<Game>)
    ensures SortedByDate(SortByDate(s))
  {
    if s != [] {
      SortByDateSorted(s[..|s| - 1]);
      InsertSorted(SortByDate(s[..|s| - 1]), s[|s| - 1]);
    }
  }

  /** Inserting `g` puts it after every record of its own date. */
  lemma {:induction false} InsertStable(t: seq<Game>, g: Game, d: Date)
    ensures Members(Insert(t, g), DateOf, d) == Members(t, DateOf, d) + (if g.date == d then [g] else [])
  {
    if t == [] {
      assert Insert(t, g) == [g];
      assert [g][..0] == [];
    } else if DateLeq(t[|t| - 1].date, g.date) {
      assert Insert(t, g) == t + [g];
      MembersSnoc(t + [g], DateOf, |t|, d);
      assert (t + [g])[..|t| + 1] == t + [g];
      assert (t + [g])[..|t|] == t;
    } else {
      var n := |t| - 1;
      var last := t[n];
      var t' := t[..n];
      var u := Insert(t', g);
      InsertStable(t', g, d);
      assert Insert(t, g) == u + [last];
      MembersSnoc(u + [last], DateOf, |u|, d);
      assert (u + [last])[..|u| + 1] == u + [last];
      assert (u + [last])[..|u|] == u;
      MembersSnoc(t, DateOf, n, d);
      assert t[..n + 1] == t;
      var late: seq<Game> := if last.date == d then [last] else [];
      OneSideEmpty(Members(u, DateOf, d), Members(t', DateOf, d), if g.date == d then [g] else [], late);
    }
  }

  /** Appending two pieces of which one is empty commutes. */
  lemma OneSideEmpty(a: seq<Game>, rest: seq<Game>, early: seq<Game>, late: seq<Game>)
    requires a == rest + early
    requires early == [] || late == []
    ensures a + late == (rest + late) + early
  {
    if early == [] {
      assert a == rest;
      assert (rest + late) + early == rest + late;
    } else {
      assert late == [];
      assert a + late == a;
      assert rest + late == rest;
    }
  }

  /** The sort is stable: for every date, the records of that date keep
      their relative order. */
  lemma {:induction false} SortByDateStable(s: seq<Game>, d: Date)
    ensures Members(SortByDate(s), DateOf, d) == Members(s, DateOf, d)
  {
    if s != [] {
      var n := |s| - 1;
      SortByDateStable(s[..n], d);
      InsertStable(SortByDate(s[..n]), s[n], d);
      assert s[..n + 1] == s;
      MembersSnoc(s, DateOf, n, d);
    }
  }

  // ---------------------------------------------------------------------
  // Runs of prizeless records

  /** The number of prizeless records at the end of `s`: the value of
      `currentStreak` after scanning `s`. */
  function RunAtEnd(s: seq<Game>): (r: nat)
    ensures r <= |s|
  {
    if s == [] || s[|s| - 1].win != 0 then 0 else RunAtEnd(s[..|s| - 1]) + 1
  }

  /** The largest `RunAtEnd` over the prefixes of `s`: the value of
      `maxPlayerStreak` after scanning `s`. */
  function LongestRun(s: seq<Game>): nat {
    if s == [] then 0
    else
      var before := LongestRun(s[..|s| - 1]);
      if RunAtEnd(s) > before then RunAtEnd(s) else before
  }

  /** Every record in positions `lo` up to `hi` (exclusive) has no prize. */
  predicate ZeroRun(s: seq<Game>, lo: int, hi: int) {
    0 <= lo <= hi <= |s| && forall k :: lo <= k < hi ==> s[k].win == 0
  }

  /** The records counted by `RunAtEnd` are prizeless, and no longer
      prizeless run ends the list. */
  lemma {:induction false} RunAtEndIsRun(s: seq<Game>, lo: int)
    ensures RunAtEnd(s) <= |s| && ZeroRun(s, |s| - RunAtEnd(s), |s|)
    ensures ZeroRun(s, lo, |s|) ==> |s| - lo <= RunAtEnd(s)
  {
    if s != [] {
      var n := |s| - 1;
      RunAtEndIsRun(s[..n], lo);
      if s[n].win == 0 && ZeroRun(s, lo, |s|) && lo <= n {
        assert ZeroRun(s[..n], lo, n);
      }
    }
  }

  /** Where a run of length `LongestRun(s)` starts. */
  function RunStart(s: seq<Game>): nat {
    if s == [] then 0
    else if RunAtEnd(s) > LongestRun(s[..|s| - 1]) then |s| - RunAtEnd(s)
    else RunStart(s[..|s| - 1])
  }

  /** `LongestRun` is the length of the longest prizeless run: one of that
      length exists, and every prizeless run is at most that long. */
  lemma {:induction false} LongestRunIsLongest(s: seq<Game>, lo: int, hi: int)
    ensures LongestRun(s) <= |s|
    ensures ZeroRun(s, RunStart(s), RunStart(s) + LongestRun(s))
    ensures ZeroRun(s, lo, hi) ==> hi - lo <= LongestRun(s)
  {
    if s != [] {
      var n := |s| - 1;
      LongestRunIsLongest(s[..n], lo, hi);
      RunAtEndIsRun(s, lo);
      assert forall k :: 0 <= k < n ==> s[..n][k] == s[k];
      if ZeroRun(s, lo, hi) && hi <= n {
        assert ZeroRun(s[..n], lo, hi);
      }
    }
  }

  /** One more record lengthens the longest run by at most one. */
  lemma LongestRunAppend(s: seq<Game>, g: Game)
    ensures LongestRun(s) <= LongestRun(s + [g]) <= LongestRun(s) + 1
  {
    assert (s + [g])[..|s|] == s;
    RunAtEndIsRun(s, 0);
  }

  /** A list with no prize at all is one run as long as the list; a list
      where every record has a prize has no run. */
  lemma LongestRunExtremes(s: seq<Game>)
    ensures (forall i :: 0 <= i < |s| ==> s[i].win == 0) ==> LongestRun(s) == |s|
    ensures LongestRun(s) == 0 <==> forall i :: 0 <= i < |s| ==> s[i].win != 0
  {
    LongestRunIsLongest(s, 0, |s|);
    if exists i :: 0 <= i < |s| && s[i].win == 0 {
      var i :| 0 <= i < |s| && s[i].win == 0;
      LongestRunIsLongest(s, i, i + 1);
    }
    if LongestRun(s) > 0 {
      assert s[RunStart(s)].win == 0;
    }
  }

  /** Scans `s` once, as the inner `forEach` does. */
  method LongestZeroRun(s: seq<Game>) returns (longest: nat)
    ensures longest == LongestRun(s)
  {
    var current := 0;
    longest := 0;
    for i := 0 to |s|
      invariant current == RunAtEnd(s[..i])
      invariant longest == LongestRun(s[..i])
    {
      assert s[..i + 1][..i] == s[..i];
      if s[i].win == 0 {
        current := current + 1;
        if current > longest {
          longest := current;
        }
      } else {
        current := 0;
      }
    }
    assert s[..|s|] == s;
  }

  // ---------------------------------------------------------------------
  // Longest losing streak over all players

  function Push(acc: seq<Game>, g: Game): seq<Game> { acc + [g] }

  /** Collecting with `push` rebuilds the list. */
  lemma {:induction false} PushFold(ms: seq<Game>)
    ensures Fold(ms, [], Push) == ms
  {
    if ms != [] {
      PushFold(ms[..|ms| - 1]);
      assert ms[..|ms| - 1] + [ms[|ms| - 1]] == ms;
    }
  }

  /** A player's longest prizeless run, their records taken oldest first. */
  function StreakOf(games: seq<Game>, p: Player): nat {
    LongestRun(SortByDate(Members(games, PlayerOf, p)))
  }

  function Streaks(games: seq<Game>): Player -> int {
    p => StreakOf(games, p)
  }

  /** A player's streak is at most their number of records, hence at most
      the number of records; with no prize anywhere it is all of them. */
  lemma StreakBound(games: seq<Game>, p: Player)
    ensures StreakOf(games, p) <= |Members(games, PlayerOf, p)| <= |games|
    ensures (forall i :: 0 <= i < |games| ==> games[i].win == 0) ==> StreakOf(games, p) == |Members(games, PlayerOf, p)|
  {
    var ms := Members(games, PlayerOf, p);
    var sorted := SortByDate(ms);
    LongestRunIsLongest(sorted, 0, 0);
    if forall i :: 0 <= i < |games| ==> games[i].win == 0 {
      forall i | 0 <= i < |sorted|
        ensures sorted[i].win == 0
      {
        assert sorted[i] in multiset(ms);
        assert sorted[i] in games;
      }
      LongestRunExtremes(sorted);
    }
  }

  /** Adding a record dated no earlier than any of player `p`'s records
      leaves the streaks of the other players alone. For `p` the streak
      never shrinks and grows by at most one, and it stays the same when
      the new record has a prize. */
  lemma StreakAppend(games: seq<Game>, g: Game, p: Player)
    requires forall h :: h in Members(games, PlayerOf, p) ==> DateLeq(h.date, g.date)
    ensures g.player != p ==> StreakOf(games + [g], p) == StreakOf(games, p)
    ensures g.player == p ==> StreakOf(games, p) <= StreakOf(games + [g], p) <= StreakOf(games, p) + 1
    ensures g.player == p && g.win != 0 ==> StreakOf(games + [g], p) == StreakOf(games, p)
  {
    var ms := Members(games, PlayerOf, p);
    var all := games + [g];
    MembersSnoc(all, PlayerOf, |games|, p);
    assert all[..|games| + 1] == all;
    assert all[..|games|] == games;
    if g.player == p {
      var sorted := SortByDate(ms);
      assert (ms + [g])[..|ms|] == ms;
      assert SortByDate(ms + [g]) == Insert(sorted, g);
      if sorted != [] {
        var last := sorted[|sorted| - 1];
        assert last in multiset(ms);
        assert DateLeq(last.date, g.date);
      }
      assert Insert(sorted, g) == sorted + [g];
      LongestRunAppend(sorted, g);
      assert (sorted + [g])[..|sorted|] == sorted;
    }
  }

  /** One player's streak: their records sorted oldest first, then scanned. */
  method PlayerStreak(records: seq<Game>) returns (streak: nat)
    ensures streak == LongestRun(SortByDate(records))
  {
    var sorted := SortByDate(records);
    streak := LongestZeroRun(sorted);
  }

  /** Collects each player's records, in order of first appearance. */
  method CollectByPlayer(games: seq<Game>) returns (order: seq<Player>, acc: map<Player, seq<Game>>)
    ensures order == Keys(games, PlayerOf)
    ensures forall m :: 0 <= m < |order| ==> order[m] in acc && acc[order[m]] == Members(games, PlayerOf, order[m])
  {
    order, acc := GroupBy(games, PlayerOf, [], Push);
    forall m | 0 <= m < |order|
      ensures acc[order[m]] == Members(games, PlayerOf, order[m])
    {
      PushFold(Members(games, PlayerOf, order[m]));
    }
  }

  /** What the strict `>` scan leaves: the first position of the largest
      value, or no position when every value is 0. */
  lemma FirstMaxOfScan(ks: seq<Player>, F: Player -> int, w: nat, found: bool)
    requires forall i, j :: 0 <= i < j < |ks| ==> ks[i] != ks[j]
    requires forall m :: 0 <= m < |ks| ==> F(ks[m]) >= 0
    requires found ==> w < |ks| && F(ks[w]) >= 1 && forall m :: 0 <= m < w ==> F(ks[m]) < F(ks[w])
    requires forall m :: 0 <= m < |ks| ==> F(ks[m]) <= if found then F(ks[w]) else 0
    ensures !found <==> forall p :: p in ks ==> F(p) == 0
    ensures found ==> IsFirstMax(ks, F, ks[w])
  {
    if found {
      forall i, j | 0 <= i < j < |ks| && ks[j] == ks[w]
        ensures F(ks[i]) < F(ks[w])
      {
        assert j == w;
      }
      assert F(ks[w]) != 0;
    } else {
      forall p | p in ks
        ensures F(p) == 0
      {
        var m :| 0 <= m < |ks| && ks[m] == p;
      }
    }
  }

  /** `F` gives the streak of every listed player's records. */
  ghost predicate StreakTable(order: seq<Player>, acc: map<Player, seq<Game>>, F: Player -> int) {
    && (forall m :: 0 <= m < |order| ==> order[m] in acc)
    && (forall m {:trigger acc[order[m]]} :: 0 <= m < |order| ==> F(order[m]) == LongestRun(SortByDate(acc[order[m]])))
  }

  /** The streak of the `i`-th listed player, computed from their records. */
  method ListedStreak(order: seq<Player>, acc: map<Player, seq<Game>>, ghost F: Player -> int, i: nat) returns (streak: nat)
    requires i < |order| && StreakTable(order, acc, F)
    ensures streak == F(order[i])
  {
    streak := PlayerStreak(acc[order[i]]);
  }

  /** The strict `>` scan over the players in order of first appearance:
      keeps the first player whose streak beats every earlier one. `F`
      names each listed player's streak. */
  method ScanStreaks(order: seq<Player>, acc: map<Player, seq<Game>>, ghost F: Player -> int)
      returns (r: Ranked, ghost w: nat)
    requires StreakTable(order, acc, F)
    ensures forall m :: 0 <= m < |order| ==> F(order[m]) >= 0
    ensures r.Ranked? ==> w < |order| && order[w] == r.player && r.amount == F(order[w]) >= 1
    ensures r.Ranked? ==> forall m :: 0 <= m < w ==> F(order[m]) < F(order[w])
    ensures forall m :: 0 <= m < |order| ==> F(order[m]) <= if r.Ranked? then F(order[w]) else 0
  {
    var maxStreak := 0;
    r := Nobody;
    w := 0;
    for i := 0 to |order|
      invariant r.Nobody? ==> maxStreak == 0
      invariant r.Ranked? ==> 0 <= w < i && order[w] == r.player && r.amount == maxStreak == F(order[w]) >= 1
      invariant r.Ranked? ==> forall m :: 0 <= m < w ==> F(order[m]) < maxStreak
      invariant forall m :: 0 <= m < i ==> 0 <= F(order[m]) <= maxStreak
    {
      var p := order[i];
      var streak := ListedStreak(order, acc, F, i);
      if streak > maxStreak {
        maxStreak := streak;
        r := Ranked(p, streak);
        w := i;
      }
      forall m | 0 <= m < i + 1
        ensures 0 <= F(order[m]) <= maxStreak
      {
        if m == i {
          assert F(order[m]) == streak;
        }
      }
    }
  }

  /** The player with the longest run of prizeless draws (each player's
      records oldest first); the first player in order of appearance keeps
      a tie, and nobody is reported when no player has a prizeless draw. */
  method LongestLosingStreak(games: seq<Game>) returns (r: Ranked)
    ensures r.Nobody? <==> forall p :: p in Keys(games, PlayerOf) ==> Streaks(games)(p) == 0
    ensures r.Ranked? ==> r.amount == Streaks(games)(r.player) >= 1
    ensures r.Ranked? ==> IsFirstMax(Keys(games, PlayerOf), Streaks(games), r.player)
  {
    var order, acc := CollectByPlayer(games);
    ghost var w;
    r, w := ScanStreaks(order, acc, Streaks(games));
    FirstMaxOfScan(order, Streaks(games), w, r.Ranked?);
  }
}
