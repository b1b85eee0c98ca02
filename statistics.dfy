/** The aggregate statistics over the record list. Each takes the list as a
    parameter and returns a structured value in place of the rendered label;
    a "nobody"/"no games" constructor stands for the placeholder text. */
module Statistics {
  import opened GameData
  import opened Folds

  // ---------------------------------------------------------------------
  // Totals

  /** Total stake over all records. */
  function AmountPlayedFor(games: seq<Game>): (r: int)
    ensures games == [] ==> r == 0
    ensures (forall i :: 0 <= i < |games| ==> games[i].invested >= 0) ==> r >= 0
  {
    Total(games, InvestedOf)
  }

  /** Total prize money over all records. */
  function AmountWon(games: seq<Game>): (r: int)
    ensures games == [] ==> r == 0
    ensures (forall i :: 0 <= i < |games| ==> games[i].win >= 0) ==> r >= 0
  {
    Total(games, WinOf)
  }

  /** The total of a key's records is at most the total of all records when
      no record contributes a negative amount. */
  lemma {:induction false} MembersTotalBound<K>(gs: seq<Game>, key: Game -> K, k: K, f: Game -> int)
    requires forall i :: 0 <= i < |gs| ==> f(gs[i]) >= 0
    ensures 0 <= Total(Members(gs, key, k), f) <= Total(gs, f)
  {
    if gs != [] {
      var n := |gs| - 1;
      var prefix := gs[..n];
      assert forall i :: 0 <= i < n ==> prefix[i] == gs[i];
      MembersTotalBound(prefix, key, k, f);
      var rest := Members(prefix, key, k);
      assert Total(gs, f) == Total(prefix, f) + f(gs[n]);
      if key(gs[n]) == k {
        assert Members(gs, key, k) == rest + [gs[n]];
        TotalSnoc(rest, gs[n], f);
      } else {
        assert Members(gs, key, k) == rest;
      }
    }
  }

  // ---------------------------------------------------------------------
  // Count and prize total for one score

  datatype ScoreTally = ScoreTally(count: int, totalWin: int)

  /** How many records have exactly `score` matched numbers, and their prize
      money. */
  function NumberOfGamesWithScore(games: seq<Game>, score: int): (r: ScoreTally)
    ensures 0 <= r.count <= |games|
    ensures r.count == |Members(games, ScoreOf, score)|
    ensures r.totalWin == Total(Members(games, ScoreOf, score), WinOf)
    ensures r.count == 0 <==> forall i :: 0 <= i < |games| ==> games[i].score != score
    ensures r.count == 0 ==> r.totalWin == 0
    ensures (forall i :: 0 <= i < |games| ==> games[i].win >= 0) ==> 0 <= r.totalWin <= AmountWon(games)
  {
    var matching := Members(games, ScoreOf, score);
    MembersEmpty(games, ScoreOf, score);
    ScoreWinBound(games, score);
    ScoreTally(|matching|, Total(matching, WinOf))
  }

  /** With no negative prize, the prize money of one score's records lies
      between 0 and the total prize money. */
  lemma ScoreWinBound(games: seq<Game>, score: int)
    ensures (forall i :: 0 <= i < |games| ==> games[i].win >= 0) ==>
              0 <= Total(Members(games, ScoreOf, score), WinOf) <= AmountWon(games)
  {
    if forall i :: 0 <= i < |games| ==> games[i].win >= 0 {
      MembersTotalBound(games, ScoreOf, score, WinOf);
    }
  }

  // ---------------------------------------------------------------------
  // Biggest single win

  datatype BiggestWin = NoWinner | Winner(amount: int, player: Player, date: Date)

  /** The record `reduce((max, g) => g.win > max.win ? g : max, games[0])`
      settles on: the first record with the largest prize. */
  function MaxWinIndex(games: seq<Game>): (k: nat)
    requires games != []
    ensures k < |games|
    ensures forall j :: 0 <= j < |games| ==> games[j].win <= games[k].win
    ensures forall j :: 0 <= j < k ==> games[j].win < games[k].win
  {
    if |games| == 1 then 0
    else
      var a := MaxWinIndex(games[..|games| - 1]);
      assert games[..|games| - 1][a] == games[a];
      if games[|games| - 1].win > games[a].win then |games| - 1 else a
  }

  /** The largest single prize with its player and date, or `NoWinner` for
      an empty list or when the largest prize is 0. */
  function BiggestWinOf(games: seq<Game>): (r: BiggestWin)
    ensures r.NoWinner? <==>
              games == [] ||
              ((forall i :: 0 <= i < |games| ==> games[i].win <= 0) && exists i :: 0 <= i < |games| && games[i].win == 0)
    ensures r.Winner? ==>
              exists i :: 0 <= i < |games| && games[i] == Game(r.player, games[i].gameType, games[i].score, games[i].invested, r.amount, r.date) &&
                          (forall j :: 0 <= j < |games| ==> games[j].win <= r.amount) &&
                          (forall j :: 0 <= j < i ==> games[j].win < r.amount)
  {
    if |games| == 0 then NoWinner
    else
      var k := MaxWinIndex(games);
      if games[k].win == 0 then NoWinner else Winner(games[k].win, games[k].player, games[k].date)
  }

  // ---------------------------------------------------------------------
  // Most played game type

  datatype MostPlayed = NoGames | MostPlayed(gameType: GameType, count: int)

  function CountStep(count: int, g: Game): int { count + 1 }

  /** Counting with `(acc[k] || 0) + 1` gives the number of records. */
  lemma {:induction false} CountFold(ms: seq<Game>)
    ensures Fold(ms, 0, CountStep) == |ms|
  {
    if ms != [] { CountFold(ms[..|ms| - 1]); }
  }

  function Count<K>(e: (K, int)): int { e.1 }

  /** The number of records of each key. */
  function GroupSize<K(==)>(gs: seq<Game>, key: Game -> K): K -> int {
    k => |Members(gs, key, k)|
  }

  /** Each entry of a counting group-by holds its key's number of records. */
  lemma CountListed<K>(gs: seq<Game>, key: Game -> K)
    ensures var es := Grouped(gs, key, 0, CountStep);
            forall j :: 0 <= j < |es| ==> Count(es[j]) == GroupSize(gs, key)(es[j].0)
  {
    var es := Grouped(gs, key, 0, CountStep);
    forall j | 0 <= j < |es|
      ensures Count(es[j]) == GroupSize(gs, key)(es[j].0)
    {
      CountFold(Members(gs, key, es[j].0));
    }
  }

  /** Picking the largest count from a counting group-by's listing picks
      the last key with the most records, and that key has a record. */
  lemma CountPick<K>(gs: seq<Game>, key: Game -> K, entries: seq<(K, int)>)
    requires entries == Grouped(gs, key, 0, CountStep) && entries != []
    requires StrictTotalOrder(Less)
    ensures var e := entries[PickLast(entries, Count, Less)];
            e.1 == |Members(gs, key, e.0)| >= 1 && IsLastBest(Keys(gs, key), GroupSize(gs, key), Less, e.0)
  {
    GroupedKeys(gs, key, 0, CountStep);
    CountListed(gs, key);
    var e := entries[PickLast(entries, Count, Less)];
    PickLastListing(entries, Count, Less, GroupSize(gs, key));
    KeyHasMembers(gs, key, e.0);
  }

  /** The game type with the most records; on a tie, the type that appeared
      later for the first time. `NoGames` exactly for an empty list. */
  method MostPlayedGameType(games: seq<Game>) returns (r: MostPlayed)
    ensures r.NoGames? <==> games == []
    ensures r.MostPlayed? ==> r.count == |Members(games, TypeOf, r.gameType)| >= 1
    ensures r.MostPlayed? ==> IsLastBest(Keys(games, TypeOf), GroupSize(games, TypeOf), Less, r.gameType)
  {
    if |games| == 0 {
      return NoGames;
    }
    var order, acc := GroupBy(games, TypeOf, 0, CountStep);
    var entries := Entries(order, acc);
    GroupedKeys(games, TypeOf, 0, CountStep);
    NumberOrders();
    var k := PickLast(entries, Count, Less);
    r := MostPlayed(entries[k].0, entries[k].1);
    CountPick(games, TypeOf, entries);
  }

  // ---------------------------------------------------------------------
  // Net result per player

  datatype NetTotals = NetTotals(totalWin: int, totalInvested: int)

  function NetStep(acc: NetTotals, g: Game): NetTotals {
    NetTotals(acc.totalWin + g.win, acc.totalInvested + g.invested)
  }

  /** The `{ totalWin, totalInvested }` accumulator holds the two sums. */
  lemma {:induction false} NetFold(ms: seq<Game>)
    ensures Fold(ms, NetTotals(0, 0), NetStep) == NetTotals(Total(ms, WinOf), Total(ms, InvestedOf))
  {
    if ms != [] { NetFold(ms[..|ms| - 1]); }
  }

  /** A player's net result: prize money minus stake over their records. */
  function NetOf(games: seq<Game>, p: Player): int {
    var ms := Members(games, PlayerOf, p);
    Total(ms, WinOf) - Total(ms, InvestedOf)
  }

  function NetResults(games: seq<Game>): Player -> int {
    p => NetOf(games, p)
  }

  function NetResult(e: (Player, NetTotals)): int { e.1.totalWin - e.1.totalInvested }

  /** Each entry of the net-result group-by yields its player's net result. */
  lemma NetListed(games: seq<Game>)
    ensures var es := Grouped(games, PlayerOf, NetTotals(0, 0), NetStep);
            forall j :: 0 <= j < |es| ==> NetResult(es[j]) == NetResults(games)(es[j].0)
  {
    var es := Grouped(games, PlayerOf, NetTotals(0, 0), NetStep);
    forall j | 0 <= j < |es|
      ensures NetResult(es[j]) == NetResults(games)(es[j].0)
    {
      NetFold(Members(games, PlayerOf, es[j].0));
    }
  }

  /** A player and the value shown beside them. */
  datatype Standing = Standing(player: Player, amount: int)

  /** The player with the highest net result; on a tie, the player who
      appeared later for the first time. Needs a record: the unseeded
      `reduce` throws on an empty list. */
  method PlayerWithHighestTotalWins(games: seq<Game>) returns (r: Standing)
    requires games != []
    ensures r.amount == NetOf(games, r.player)
    ensures IsLastBest(Keys(games, PlayerOf), NetResults(games), Less, r.player)
  {
    var order, acc := GroupBy(games, PlayerOf, NetTotals(0, 0), NetStep);
    var entries := Entries(order, acc);
    NetListed(games);
    NumberOrders();
    PickGrouped(games, PlayerOf, NetTotals(0, 0), NetStep, NetResult, Less, NetResults(games));
    var k := PickLast(entries, NetResult, Less);
    r := Standing(entries[k].0, NetResult(entries[k]));
  }

  /** The player with the lowest net result; on a tie, the player who
      appeared later for the first time. Needs a record, as above. */
  method PlayerWithMostLosses(games: seq<Game>) returns (r: Standing)
    requires games != []
    ensures r.amount == NetOf(games, r.player)
    ensures IsLastBest(Keys(games, PlayerOf), NetResults(games), Greater, r.player)
  {
    var order, acc := GroupBy(games, PlayerOf, NetTotals(0, 0), NetStep);
    var entries := Entries(order, acc);
    NetListed(games);
    NumberOrders();
    PickGrouped(games, PlayerOf, NetTotals(0, 0), NetStep, NetResult, Greater, NetResults(games));
    var k := PickLast(entries, NetResult, Greater);
    r := Standing(entries[k].0, NetResult(entries[k]));
  }

  // ---------------------------------------------------------------------
  // Score average per player

  datatype ScoreTotals = ScoreTotals(totalScore: int, gameCount: int)

  function ScoreStep(acc: ScoreTotals, g: Game): ScoreTotals {
    ScoreTotals(acc.totalScore + g.score, acc.gameCount + 1)
  }

  /** The `{ totalScore, gameCount }` accumulator holds the score sum and the
      number of records. */
  lemma {:induction false} ScoreFold(ms: seq<Game>)
    ensures Fold(ms, ScoreTotals(0, 0), ScoreStep) == ScoreTotals(Total(ms, ScoreOf), |ms|)
  {
    if ms != [] { ScoreFold(ms[..|ms| - 1]); }
  }

  /** `totalScore / gameCount` as an exact quotient (0 for no records,
      which never occurs for a listed player). */
  function Mean(total: int, count: int): real {
    if count == 0 then 0.0 else total as real / count as real
  }

  /** A player's mean score. */
  function AverageOf(games: seq<Game>, p: Player): real {
    var ms := Members(games, PlayerOf, p);
    Mean(Total(ms, ScoreOf), |ms|)
  }

  function Averages(games: seq<Game>): Player -> real {
    p => AverageOf(games, p)
  }

  function Average(e: (Player, ScoreTotals)): real { Mean(e.1.totalScore, e.1.gameCount) }

  /** Each entry of the score group-by yields its player's mean score. */
  lemma AverageListed(games: seq<Game>)
    ensures var es := Grouped(games, PlayerOf, ScoreTotals(0, 0), ScoreStep);
            forall j :: 0 <= j < |es| ==> Average(es[j]) == Averages(games)(es[j].0)
  {
    var es := Grouped(games, PlayerOf, ScoreTotals(0, 0), ScoreStep);
    forall j | 0 <= j < |es|
      ensures Average(es[j]) == Averages(games)(es[j].0)
    {
      ScoreFold(Members(games, PlayerOf, es[j].0));
    }
  }

  datatype AverageStanding = AverageStanding(player: Player, average: real)

  /** The player with the highest mean score; on a tie, the player who
      appeared later for the first time. Needs a record, as above. */
  method PlayerWithBestScoreAverage(games: seq<Game>) returns (r: AverageStanding)
    requires games != []
    ensures r.average == AverageOf(games, r.player)
    ensures IsLastBest(Keys(games, PlayerOf), Averages(games), LessReal, r.player)
  {
    var order, acc := GroupBy(games, PlayerOf, ScoreTotals(0, 0), ScoreStep);
    var entries := Entries(order, acc);
    AverageListed(games);
    NumberOrders();
    PickGrouped(games, PlayerOf, ScoreTotals(0, 0), ScoreStep, Average, LessReal, Averages(games));
    var k := PickLast(entries, Average, LessReal);
    r := AverageStanding(entries[k].0, Average(entries[k]));
  }

  /** The player with the lowest mean score; on a tie, the player who
      appeared later for the first time. Needs a record, as above. */
  method PlayerWithWorstScoreAverage(games: seq<Game>) returns (r: AverageStanding)
    requires games != []
    ensures r.average == AverageOf(games, r.player)
    ensures IsLastBest(Keys(games, PlayerOf), Averages(games), GreaterReal, r.player)
  {
    var order, acc := GroupBy(games, PlayerOf, ScoreTotals(0, 0), ScoreStep);
    var entries := Entries(order, acc);
    AverageListed(games);
    NumberOrders();
    PickGrouped(games, PlayerOf, ScoreTotals(0, 0), ScoreStep, Average, GreaterReal, Averages(games));
    var k := PickLast(entries, Average, GreaterReal);
    r := AverageStanding(entries[k].0, Average(entries[k]));
  }

  // ---------------------------------------------------------------------
  // Player with most records of one score

  /** A result shown as a value beside a player, or the placeholder. */
  datatype Ranked = Nobody | Ranked(player: Player, amount: int)

  /** The player with the most records of `score`; on a tie, the player whose
      first such record came later. `Nobody` exactly when no record has it.
      Counting only the matching records is the same as grouping the list of
      matching records. */
  method PlayerWithMostScore(games: seq<Game>, score: int) returns (r: Ranked)
    ensures r.Nobody? <==> forall i :: 0 <= i < |games| ==> games[i].score != score
    ensures r.Ranked? ==>
              var matching := Members(games, ScoreOf, score);
              r.amount == |Members(matching, PlayerOf, r.player)| >= 1 &&
              IsLastBest(Keys(matching, PlayerOf), GroupSize(matching, PlayerOf), Less, r.player)
  {
    var matching := Members(games, ScoreOf, score);
    var order, acc := GroupBy(matching, PlayerOf, 0, CountStep);
    var entries := Entries(order, acc);
    GroupedKeys(matching, PlayerOf, 0, CountStep);
    MembersEmpty(games, ScoreOf, score);
    if |entries| == 0 {
      return Nobody;
    }
    NumberOrders();
    var k := PickLast(entries, Count, Less);
    r := Ranked(entries[k].0, entries[k].1);
    CountPick(matching, PlayerOf, entries);
  }

  // ---------------------------------------------------------------------
  // Player with the largest stake who never won

  datatype InvestTotals = InvestTotals(totalInvested: int, hasWon: bool)

  function InvestStep(acc: InvestTotals, g: Game): InvestTotals {
    InvestTotals(acc.totalInvested + g.invested, acc.hasWon || g.win > 0)
  }

  /** The `{ totalInvested, hasWon }` accumulator holds the stake sum and
      whether any record has a positive prize. */
  lemma {:induction false} InvestFold(ms: seq<Game>)
    ensures Fold(ms, InvestTotals(0, false), InvestStep) ==
            InvestTotals(Total(ms, InvestedOf), exists i :: 0 <= i < |ms| && ms[i].win > 0)
  {
    if ms != [] {
      var n := |ms| - 1;
      InvestFold(ms[..n]);
      assert forall i :: 0 <= i < n ==> ms[..n][i] == ms[i];
    }
  }

  /** Whether some record of the player has a positive prize. */
  predicate HasWon(games: seq<Game>, p: Player) {
    exists i :: 0 <= i < |games| && games[i].player == p && games[i].win > 0
  }

  /** A player's total stake. */
  function InvestedBy(games: seq<Game>, p: Player): int {
    Total(Members(games, PlayerOf, p), InvestedOf)
  }

  function Investments(games: seq<Game>): Player -> int {
    p => InvestedBy(games, p)
  }

  /** Each entry of the stake group-by holds its player's total stake and
      whether they ever won. */
  lemma InvestListed(games: seq<Game>)
    ensures var es, ks := Grouped(games, PlayerOf, InvestTotals(0, false), InvestStep), Keys(games, PlayerOf);
            |es| == |ks| &&
            forall j :: 0 <= j < |es| ==> es[j] == (ks[j], InvestTotals(Investments(games)(ks[j]), Winners(games)(ks[j])))
  {
    var es := Grouped(games, PlayerOf, InvestTotals(0, false), InvestStep);
    forall j | 0 <= j < |es|
      ensures es[j] == (Keys(games, PlayerOf)[j], InvestTotals(Investments(games)(es[j].0), Winners(games)(es[j].0)))
    {
      var p := es[j].0;
      var ms := Members(games, PlayerOf, p);
      InvestFold(ms);
      if exists i :: 0 <= i < |ms| && ms[i].win > 0 {
        var i :| 0 <= i < |ms| && ms[i].win > 0;
        assert ms[i] in games;
      }
      if HasWon(games, p) {
        var i :| 0 <= i < |games| && games[i].player == p && games[i].win > 0;
        assert games[i] in ms;
      }
    }
  }

  /** `.filter(([_, s]) => !s.hasWon).map(([p, s]) => ({ p, s.totalInvested }))`
      over the entries. */
  function NoWinCandidates(es: seq<(Player, InvestTotals)>): seq<(Player, int)> {
    if es == [] then []
    else
      var c := NoWinCandidates(es[..|es| - 1]);
      var e := es[|es| - 1];
      if e.1.hasWon then c else c + [(e.0, e.1.totalInvested)]
  }

  /** The keys of `ks` that `flagged` does not mark, in the order of `ks`. */
  function Unflagged(ks: seq<Player>, flagged: Player -> bool): seq<Player> {
    if ks == [] then []
    else
      var c := Unflagged(ks[..|ks| - 1], flagged);
      if flagged(ks[|ks| - 1]) then c else c + [ks[|ks| - 1]]
  }

  /** `Unflagged` keeps exactly the unmarked keys. */
  lemma {:induction false} UnflaggedMembers(ks: seq<Player>, flagged: Player -> bool)
    ensures forall p :: p in Unflagged(ks, flagged) <==> p in ks && !flagged(p)
  {
    if ks != [] {
      var n := |ks| - 1;
      UnflaggedMembers(ks[..n], flagged);
      assert forall p :: p in ks <==> p in ks[..n] || p == ks[n];
    }
  }

  /** `Unflagged` keeps distinct keys distinct. */
  lemma {:induction false} UnflaggedDistinct(ks: seq<Player>, flagged: Player -> bool)
    requires forall i, j :: 0 <= i < j < |ks| ==> ks[i] != ks[j]
    ensures forall i, j :: 0 <= i < j < |Unflagged(ks, flagged)| ==> Unflagged(ks, flagged)[i] != Unflagged(ks, flagged)[j]
  {
    if ks != [] {
      var n := |ks| - 1;
      var c := Unflagged(ks[..n], flagged);
      UnflaggedDistinct(ks[..n], flagged);
      UnflaggedMembers(ks[..n], flagged);
      assert ks[n] !in ks[..n];
      if !flagged(ks[n]) {
        var d := c + [ks[n]];
        assert Unflagged(ks, flagged) == d;
        forall i, j | 0 <= i < j < |d|
          ensures d[i] != d[j]
        {
          assert d[i] == c[i] && c[i] in c;
          if j < |c| {
            assert d[j] == c[j];
            assert c[i] != c[j];
          } else {
            assert d[j] == ks[n];
            assert c[i] in ks[..n];
          }
        }
      }
    }
  }

  function Winners(games: seq<Game>): Player -> bool {
    p => HasWon(games, p)
  }

  /** The players of `ks` who never won, in the order of `ks`. */
  function NeverWonPlayers(games: seq<Game>, ks: seq<Player>): (c: seq<Player>)
    ensures forall p :: p in c <==> p in ks && !HasWon(games, p)
  {
    UnflaggedMembers(ks, Winners(games));
    Unflagged(ks, Winners(games))
  }

  /** Filtering entries that pair each key with its amount and its flag
      keeps exactly the unflagged keys, each with its amount. */
  lemma {:induction false} CandidatesListed(es: seq<(Player, InvestTotals)>, ks: seq<Player>, amount: Player -> int, flagged: Player -> bool)
    requires |es| == |ks|
    requires forall j :: 0 <= j < |es| ==> es[j] == (ks[j], InvestTotals(amount(ks[j]), flagged(ks[j])))
    ensures KeysOf(NoWinCandidates(es)) == Unflagged(ks, flagged)
    ensures var xs := NoWinCandidates(es);
            forall j :: 0 <= j < |xs| ==> Count(xs[j]) == amount(xs[j].0)
  {
    if es != [] {
      var n := |es| - 1;
      assert forall j :: 0 <= j < n ==> es[..n][j] == es[j] && ks[..n][j] == ks[j];
      CandidatesListed(es[..n], ks[..n], amount, flagged);
      var c := NoWinCandidates(es[..n]);
      var u := Unflagged(ks[..n], flagged);
      assert es[n] == (ks[n], InvestTotals(amount(ks[n]), flagged(ks[n])));
      if es[n].1.hasWon {
        assert NoWinCandidates(es) == c && Unflagged(ks, flagged) == u;
      } else {
        var x := (ks[n], amount(ks[n]));
        assert NoWinCandidates(es) == c + [x] && Unflagged(ks, flagged) == u + [ks[n]];
        assert KeysOf(c + [x]) == KeysOf(c) + [ks[n]];
        assert forall j :: 0 <= j < |c| ==> (c + [x])[j] == c[j];
      }
    }
  }

  /** Picking the last largest amount among the unflagged entries picks the
      last unflagged key with the largest amount; there is none exactly when
      every key is flagged. */
  lemma NoWinChoice(es: seq<(Player, InvestTotals)>, ks: seq<Player>, amount: Player -> int, flagged: Player -> bool)
    requires |es| == |ks|
    requires forall i, j :: 0 <= i < j < |ks| ==> ks[i] != ks[j]
    requires forall j :: 0 <= j < |es| ==> es[j] == (ks[j], InvestTotals(amount(ks[j]), flagged(ks[j])))
    ensures var xs := NoWinCandidates(es);
            (xs == [] <==> Unflagged(ks, flagged) == []) &&
            (xs != [] ==>
               var x := xs[PickLast(xs, Count, Less)];
               x.1 == amount(x.0) && IsLastBest(Unflagged(ks, flagged), amount, Less, x.0))
  {
    CandidatesListed(es, ks, amount, flagged);
    UnflaggedMembers(ks, flagged);
    UnflaggedDistinct(ks, flagged);
    var xs := NoWinCandidates(es);
    NumberOrders();
    if xs != [] {
      PickLastListing(xs, Count, Less, amount);
    }
  }

  /** The player with the largest total stake among those who never won; on
      a tie, the candidate who appeared later for the first time. `Nobody`
      when every player has won (in particular for an empty list). */
  method PlayerWithMostInvestedNoWin(games: seq<Game>) returns (r: Ranked)
    ensures r.Nobody? <==> NeverWonPlayers(games, Keys(games, PlayerOf)) == []
    ensures r.Ranked? ==> r.amount == InvestedBy(games, r.player)
    ensures r.Ranked? ==> IsLastBest(NeverWonPlayers(games, Keys(games, PlayerOf)), Investments(games), Less, r.player)
  {
    var order, acc := GroupBy(games, PlayerOf, InvestTotals(0, false), InvestStep);
    var entries := Entries(order, acc);
    InvestListed(games);
    NoWinChoice(entries, order, Investments(games), Winners(games));
    var candidates := NoWinCandidates(entries);
    if |candidates| == 0 {
      return Nobody;
    }
    NumberOrders();
    var k := PickLast(candidates, Count, Less);
    r := Ranked(candidates[k].0, candidates[k].1);
  }

  // ---------------------------------------------------------------------
  // Per-type statistics

  datatype TypeStats = TypeStats(count: int, totalInvested: int, totalWin: int, totalScore: int)

  function TypeStep(acc: TypeStats, g: Game): TypeStats {
    TypeStats(acc.count + 1, acc.totalInvested + g.invested, acc.totalWin + g.win, acc.totalScore + g.score)
  }

  /** The four-field per-type accumulator holds the count and the three sums. */
  lemma {:induction false} TypeFold(ms: seq<Game>)
    ensures Fold(ms, TypeStats(0, 0, 0, 0), TypeStep) ==
            TypeStats(|ms|, Total(ms, InvestedOf), Total(ms, WinOf), Total(ms, ScoreOf))
  {
    if ms != [] { TypeFold(ms[..|ms| - 1]); }
  }

  /** A type's entry, or the all-zero record for an absent type. */
  function StatsOf(stats: map<GameType, TypeStats>, t: GameType): TypeStats {
    if t in stats then stats[t] else TypeStats(0, 0, 0, 0)
  }

  /** The two game types split the records: their counts add up to the
      number of records and their sums to the overall sums. */
  lemma {:induction false} TypePartition(gs: seq<Game>, f: Game -> int)
    ensures |Members(gs, TypeOf, Reduced)| + |Members(gs, TypeOf, Mathematic)| == |gs|
    ensures Total(Members(gs, TypeOf, Reduced), f) + Total(Members(gs, TypeOf, Mathematic), f) == Total(gs, f)
  {
    if gs != [] {
      var n := |gs| - 1;
      var g := gs[n];
      var rs, ms := Members(gs[..n], TypeOf, Reduced), Members(gs[..n], TypeOf, Mathematic);
      TypePartition(gs[..n], f);
      assert Total(gs, f) == Total(gs[..n], f) + f(g) by {
        assert gs[..n] + [g] == gs;
        TotalSnoc(gs[..n], g, f);
      }
      assert gs[..n + 1] == gs;
      MembersSnoc(gs, TypeOf, n, Reduced);
      MembersSnoc(gs, TypeOf, n, Mathematic);
      if g.gameType == Reduced {
        TotalSnoc(rs, g, f);
      } else {
        TotalSnoc(ms, g, f);
      }
    }
  }

  /** Count, stake, prize and score sums per game type, for the types that
      occur. */
  method GameTypeStats(games: seq<Game>) returns (stats: map<GameType, TypeStats>)
    ensures forall t :: t in stats <==> exists i :: 0 <= i < |games| && games[i].gameType == t
    ensures forall t :: t in stats ==>
              var ms := Members(games, TypeOf, t);
              stats[t] == TypeStats(|ms|, Total(ms, InvestedOf), Total(ms, WinOf), Total(ms, ScoreOf)) && stats[t].count >= 1
    ensures StatsOf(stats, Reduced).count + StatsOf(stats, Mathematic).count == |games|
    ensures StatsOf(stats, Reduced).totalInvested + StatsOf(stats, Mathematic).totalInvested == AmountPlayedFor(games)
    ensures StatsOf(stats, Reduced).totalWin + StatsOf(stats, Mathematic).totalWin == AmountWon(games)
  {
    var order;
    order, stats := GroupBy(games, TypeOf, TypeStats(0, 0, 0, 0), TypeStep);
    forall t | t in stats
      ensures var ms := Members(games, TypeOf, t);
              stats[t] == TypeStats(|ms|, Total(ms, InvestedOf), Total(ms, WinOf), Total(ms, ScoreOf)) && stats[t].count >= 1
    {
      var ms := Members(games, TypeOf, t);
      TypeFold(ms);
      var i :| 0 <= i < |games| && TypeOf(games[i]) == t;
      assert games[i] in ms;
    }
    forall t | t !in stats
      ensures Members(games, TypeOf, t) == []
    {
      MembersOfUnseenKey(games, TypeOf, t);
    }
    TypePartition(games, InvestedOf);
    TypePartition(games, WinOf);
  }

  datatype TypePerformance = NoGamesOfType | TypePerformance(net: int, averageScore: real)

  /** Net result and mean score of one game type, or `NoGamesOfType` when the
      type has no records. */
  method GameTypePerformance(games: seq<Game>, t: GameType) returns (r: TypePerformance)
    ensures r.NoGamesOfType? <==> forall i :: 0 <= i < |games| ==> games[i].gameType != t
    ensures r.TypePerformance? ==>
              var ms := Members(games, TypeOf, t);
              |ms| >= 1 &&
              r.net == Total(ms, WinOf) - Total(ms, InvestedOf) &&
              r.averageScore == Total(ms, ScoreOf) as real / |ms| as real
  {
    var stats := GameTypeStats(games);
    var s := StatsOf(stats, t);
    if s.count == 0 {
      r := NoGamesOfType;
    } else {
      r := TypePerformance(s.totalWin - s.totalInvested, s.totalScore as real / s.count as real);
    }
  }
}
