/** What the statistics report for the store as shipped. The nine-record
    list is never unfolded as a whole: each group and listing is first
    characterised in general, then instantiated at the store. */
module FixtureFacts {
  import opened GameData
  import opened Folds
  import opened Statistics
  import opened Streak

  /** The records with key `k` are exactly those at the increasing
      positions `idx`. */
  lemma {:induction false} MembersAt<K>(gs: seq<Game>, key: Game -> K, k: K, idx: seq<int>)
    requires forall j :: 0 <= j < |idx| ==> 0 <= idx[j] < |gs|
    requires forall i, j :: 0 <= i < j < |idx| ==> idx[i] < idx[j]
    requires forall i {:trigger gs[i]} :: 0 <= i < |gs| ==> (key(gs[i]) == k <==> i in idx)
    ensures |Members(gs, key, k)| == |idx|
    ensures forall j :: 0 <= j < |idx| ==> Members(gs, key, k)[j] == gs[idx[j]]
  {
    if gs == [] {
      IncreasingBound(idx, 0);
    } else {
      var n := |gs| - 1;
      var prefix := gs[..n];
      if key(gs[n]) == k {
        assert n in idx;
        var m := |idx| - 1;
        var front := idx[..m];
        PositionsDropLast(gs, key, k, idx, prefix, front);
        MembersAt(prefix, key, k, front);
        MembersAtLast(gs, key, k, idx, prefix, front);
      } else {
        PositionsBelowLast(gs, key, k, idx, prefix);
        MembersAt(prefix, key, k, idx);
        MembersAtSkip(gs, key, k, idx, prefix);
      }
    }
  }

  /** When the last record carries `k`, it is the last position, and the
      others describe the records before it. */
  lemma PositionsDropLast<K>(gs: seq<Game>, key: Game -> K, k: K, idx: seq<int>, prefix: seq<Game>, front: seq<int>)
    requires gs != [] && key(gs[|gs| - 1]) == k && prefix == gs[..|gs| - 1]
    requires idx != [] && front == idx[..|idx| - 1]
    requires forall j :: 0 <= j < |idx| ==> 0 <= idx[j] < |gs|
    requires forall i, j :: 0 <= i < j < |idx| ==> idx[i] < idx[j]
    requires forall i {:trigger gs[i]} :: 0 <= i < |gs| ==> (key(gs[i]) == k <==> i in idx)
    ensures idx[|idx| - 1] == |gs| - 1
    ensures forall j :: 0 <= j < |front| ==> 0 <= front[j] < |prefix|
    ensures forall i, j :: 0 <= i < j < |front| ==> front[i] < front[j]
    ensures forall i {:trigger prefix[i]} :: 0 <= i < |prefix| ==> (key(prefix[i]) == k <==> i in front)
  {
    var n := |gs| - 1;
    var m := |idx| - 1;
    assert n in idx;
    assert idx[m] == n by {
      var j :| 0 <= j < |idx| && idx[j] == n;
      assert j == m;
    }
    forall i | 0 <= i < n
      ensures key(prefix[i]) == k <==> i in front
    {
      assert prefix[i] == gs[i];
      if i in idx {
        var j :| 0 <= j < |idx| && idx[j] == i;
        assert j != m;
        assert front[j] == i;
      }
    }
  }

  /** The group grows by the last record at the last position. */
  lemma MembersAtLast<K>(gs: seq<Game>, key: Game -> K, k: K, idx: seq<int>, prefix: seq<Game>, front: seq<int>)
    requires gs != [] && key(gs[|gs| - 1]) == k && prefix == gs[..|gs| - 1]
    requires idx != [] && front == idx[..|idx| - 1] && idx[|idx| - 1] == |gs| - 1
    requires forall j :: 0 <= j < |idx| ==> 0 <= idx[j] < |gs|
    requires forall j :: 0 <= j < |front| ==> 0 <= front[j] < |prefix|
    requires |Members(prefix, key, k)| == |front|
    requires forall j :: 0 <= j < |front| ==> Members(prefix, key, k)[j] == prefix[front[j]]
    ensures |Members(gs, key, k)| == |idx|
    ensures forall j :: 0 <= j < |idx| ==> Members(gs, key, k)[j] == gs[idx[j]]
  {
    var n := |gs| - 1;
    var rest := Members(prefix, key, k);
    var ms := Members(gs, key, k);
    MembersSnoc(gs, key, n, k);
    assert gs[..n + 1] == gs;
    assert ms == rest + [gs[n]];
    forall j | 0 <= j < |idx|
      ensures ms[j] == gs[idx[j]]
    {
      if j < |front| {
        assert front[j] == idx[j];
        assert ms[j] == rest[j];
        assert prefix[front[j]] == gs[front[j]];
      } else {
        assert j == |idx| - 1 && ms[j] == gs[n];
      }
    }
  }

  /** The group is unchanged by a last record that does not carry `k`. */
  lemma MembersAtSkip<K>(gs: seq<Game>, key: Game -> K, k: K, idx: seq<int>, prefix: seq<Game>)
    requires gs != [] && key(gs[|gs| - 1]) != k && prefix == gs[..|gs| - 1]
    requires forall j :: 0 <= j < |idx| ==> 0 <= idx[j] < |prefix|
    requires |Members(prefix, key, k)| == |idx|
    requires forall j :: 0 <= j < |idx| ==> Members(prefix, key, k)[j] == prefix[idx[j]]
    ensures |Members(gs, key, k)| == |idx|
    ensures forall j :: 0 <= j < |idx| ==> Members(gs, key, k)[j] == gs[idx[j]]
  {
    var n := |gs| - 1;
    MembersSnoc(gs, key, n, k);
    assert gs[..n + 1] == gs;
    var ms := Members(gs, key, k);
    assert ms == Members(prefix, key, k);
    forall j | 0 <= j < |idx|
      ensures ms[j] == gs[idx[j]]
    {
      assert prefix[idx[j]] == gs[idx[j]];
    }
  }

  /** When the last record does not carry `k`, every position lies before
      it. */
  lemma PositionsBelowLast<K>(gs: seq<Game>, key: Game -> K, k: K, idx: seq<int>, prefix: seq<Game>)
    requires gs != [] && key(gs[|gs| - 1]) != k && prefix == gs[..|gs| - 1]
    requires forall j :: 0 <= j < |idx| ==> 0 <= idx[j] < |gs|
    requires forall i {:trigger gs[i]} :: 0 <= i < |gs| ==> (key(gs[i]) == k <==> i in idx)
    ensures forall j :: 0 <= j < |idx| ==> 0 <= idx[j] < |prefix|
    ensures forall i {:trigger prefix[i]} :: 0 <= i < |prefix| ==> (key(prefix[i]) == k <==> i in idx)
  {
    var n := |gs| - 1;
    forall j | 0 <= j < |idx|
      ensures idx[j] < n
    {
      assert idx[j] in idx;
    }
    forall i | 0 <= i < n
      ensures prefix[i] == gs[i]
    {
    }
  }

  /** Strictly increasing positions below `bound` number at most `bound`. */
  lemma {:induction false} IncreasingBound(idx: seq<int>, bound: nat)
    requires forall j :: 0 <= j < |idx| ==> 0 <= idx[j] < bound
    requires forall i, j :: 0 <= i < j < |idx| ==> idx[i] < idx[j]
    ensures |idx| <= bound
  {
    if idx != [] {
      var m := |idx| - 1;
      IncreasingBound(idx[..m], idx[m]);
    }
  }

  /** Once every later record's key has been seen, the listing is fixed. */
  lemma {:induction false} KeysSettled<K>(gs: seq<Game>, key: Game -> K, n: nat)
    requires n <= |gs|
    requires forall i :: n <= i < |gs| ==> key(gs[i]) in Keys(gs[..n], key)
    ensures Keys(gs, key) == Keys(gs[..n], key)
    decreases |gs|
  {
    if |gs| == n {
      assert gs[..n] == gs;
    } else {
      var m := |gs| - 1;
      var prefix := gs[..m];
      assert prefix[..n] == gs[..n];
      assert forall i :: n <= i < m ==> prefix[i] == gs[i];
      KeysSettled(prefix, key, n);
      KeysSnoc(gs, key, m);
      assert gs[..m + 1] == gs;
      assert key(gs[m]) in Keys(prefix, key);
    }
  }

  /** The listing of three records. */
  lemma KeysOfThree<K>(a: Game, b: Game, c: Game, key: Game -> K)
    ensures key(a) != key(b) && key(b) != key(c) && key(a) != key(c) ==> Keys([a, b, c], key) == [key(a), key(b), key(c)]
    ensures key(a) == key(b) && key(b) != key(c) ==> Keys([a, b, c], key) == [key(a), key(c)]
  {
    assert [a, b, c][..2] == [a, b];
    assert [a, b][..1] == [a];
    assert [a][..0] == [];
    assert Keys([a], key) == [key(a)];
  }

  /** The sum over three records. */
  lemma TotalOfThree(ms: seq<Game>, a: Game, b: Game, c: Game, f: Game -> int)
    requires |ms| == 3 && ms[0] == a && ms[1] == b && ms[2] == c
    ensures Total(ms, f) == f(a) + f(b) + f(c)
  {
    assert ms == [a, b, c];
    assert [a, b, c][..2] == [a, b];
    assert [a, b][..1] == [a];
    assert [a][..0] == [];
    assert Total([a], f) == f(a);
    assert Total([a, b], f) == f(a) + f(b);
  }

  /** A record with the given player, type, score and stake, and no prize. */
  predicate Entry(g: Game, p: Player, t: GameType, score: int, invested: int) {
    g.player == p && g.gameType == t && g.score == score && g.invested == invested && g.win == 0
  }

  /** A list shaped like the store: the same records in the same order, up
      to their dates. */
  predicate LikeStore(gs: seq<Game>) {
    && |gs| == 9
    && Entry(gs[0], Eriksson, Mathematic, 9, 864)
    && Entry(gs[1], Hellstrom, Mathematic, 11, 864)
    && Entry(gs[2], Wallin, Reduced, 8, 912)
    && Entry(gs[3], Hellstrom, Mathematic, 8, 768)
    && Entry(gs[4], Eriksson, Mathematic, 6, 768)
    && Entry(gs[5], Wallin, Mathematic, 9, 864)
    && Entry(gs[6], Hellstrom, Mathematic, 6, 768)
    && Entry(gs[7], Eriksson, Reduced, 9, 912)
    && Entry(gs[8], Wallin, Reduced, 8, 864)
  }

  lemma FixtureLikeStore()
    ensures LikeStore(Fixture)
  {
  }

  lemma PlayerListing(gs: seq<Game>)
    requires LikeStore(gs)
    ensures Keys(gs, PlayerOf) == [Eriksson, Hellstrom, Wallin]
  {
    assert gs[..3] == [gs[0], gs[1], gs[2]];
    KeysOfThree(gs[0], gs[1], gs[2], PlayerOf);
    KeysSettled(gs, PlayerOf, 3);
  }

  lemma TypeListing(gs: seq<Game>)
    requires LikeStore(gs)
    ensures Keys(gs, TypeOf) == [Mathematic, Reduced]
  {
    assert gs[..3] == [gs[0], gs[1], gs[2]];
    KeysOfThree(gs[0], gs[1], gs[2], TypeOf);
    KeysSettled(gs, TypeOf, 3);
  }

  /** A key carried by exactly three records: its group and its sums. */
  lemma GroupOfThree<K>(gs: seq<Game>, key: Game -> K, k: K, a: nat, b: nat, c: nat, f: Game -> int)
    requires a < b < c < |gs|
    requires forall i :: 0 <= i < |gs| ==> (key(gs[i]) == k <==> i == a || i == b || i == c)
    ensures |Members(gs, key, k)| == 3
    ensures Total(Members(gs, key, k), f) == f(gs[a]) + f(gs[b]) + f(gs[c])
  {
    MembersAt(gs, key, k, [a, b, c]);
    TotalOfThree(Members(gs, key, k), gs[a], gs[b], gs[c], f);
  }

  /** Each player of a store-shaped list has three records. */
  lemma PlayerGroup(gs: seq<Game>, p: Player, f: Game -> int)
    requires LikeStore(gs)
    ensures |Members(gs, PlayerOf, p)| == 3
    ensures Total(Members(gs, PlayerOf, p), f) ==
            match p
            case Eriksson => f(gs[0]) + f(gs[4]) + f(gs[7])
            case Hellstrom => f(gs[1]) + f(gs[3]) + f(gs[6])
            case Wallin => f(gs[2]) + f(gs[5]) + f(gs[8])
  {
    match p
    case Eriksson => GroupOfThree(gs, PlayerOf, p, 0, 4, 7, f);
    case Hellstrom => GroupOfThree(gs, PlayerOf, p, 1, 3, 6, f);
    case Wallin => GroupOfThree(gs, PlayerOf, p, 2, 5, 8, f);
  }

  /** The Reducerat records of a store-shaped list. */
  lemma ReducedGroup(gs: seq<Game>, f: Game -> int)
    requires LikeStore(gs)
    ensures |Members(gs, TypeOf, Reduced)| == 3
    ensures Total(Members(gs, TypeOf, Reduced), f) == f(gs[2]) + f(gs[7]) + f(gs[8])
  {
    GroupOfThree(gs, TypeOf, Reduced, 2, 7, 8, f);
  }

  /** The sum of any amount over a store-shaped list, record by record. */
  lemma StoreTotal(gs: seq<Game>, f: Game -> int)
    requires LikeStore(gs)
    ensures Total(gs, f) == f(gs[0]) + f(gs[1]) + f(gs[2]) + f(gs[3]) + f(gs[4]) + f(gs[5]) + f(gs[6]) + f(gs[7]) + f(gs[8])
  {
    TotalOfThree(gs[..3], gs[0], gs[1], gs[2], f);
    TotalOfThree(gs[3..6], gs[3], gs[4], gs[5], f);
    TotalOfThree(gs[6..], gs[6], gs[7], gs[8], f);
    TotalAppend(gs[..3], gs[3..6], f);
    TotalAppend(gs[..3] + gs[3..6], gs[6..], f);
    assert gs[..3] + gs[3..6] + gs[6..] == gs;
  }

  // ---------------------------------------------------------------------
  // The shipped store

  /** The store's total stake is 7584; nothing was won, so the biggest win
      is the placeholder. */
  lemma StoreAmounts(gs: seq<Game>)
    requires LikeStore(gs)
    ensures AmountPlayedFor(gs) == 7584
    ensures AmountWon(gs) == 0
    ensures BiggestWinOf(gs) == NoWinner
  {
    StoreTotal(gs, InvestedOf);
    StoreTotal(gs, WinOf);
  }

  /** Matematiskt is the most played type, with six of the nine records. */
  method StoreMostPlayed(gs: seq<Game>) returns (r: MostPlayed)
    requires LikeStore(gs)
    ensures r == MostPlayed(Mathematic, 6)
  {
    r := MostPlayedGameType(gs);
    TypeListing(gs);
    ReducedGroup(gs, InvestedOf);
    TypePartition(gs, InvestedOf);
    assert GroupSize(gs, TypeOf)(Reduced) == 3;
    assert GroupSize(gs, TypeOf)(Mathematic) == 6;
  }

  /** Each player's net result: their stake lost in full. */
  lemma StoreNets(gs: seq<Game>)
    requires LikeStore(gs)
    ensures NetOf(gs, Eriksson) == -2544 && NetOf(gs, Hellstrom) == -2400 && NetOf(gs, Wallin) == -2640
  {
    forall p
      ensures NetOf(gs, p) == -InvestedBy(gs, p)
    {
      PlayerGroup(gs, p, WinOf);
    }
    StoreStakes(gs);
  }

  /** Each player's total stake, and nobody ever won. */
  lemma StoreStakes(gs: seq<Game>)
    requires LikeStore(gs)
    ensures InvestedBy(gs, Eriksson) == 2544 && InvestedBy(gs, Hellstrom) == 2400 && InvestedBy(gs, Wallin) == 2640
    ensures forall p :: !HasWon(gs, p)
  {
    PlayerGroup(gs, Eriksson, InvestedOf);
    PlayerGroup(gs, Hellstrom, InvestedOf);
    PlayerGroup(gs, Wallin, InvestedOf);
  }

  /** Each player's mean score: 8 for Eriksson, 25/3 for Hellström and
      Wallin alike. */
  lemma StoreAverages(gs: seq<Game>)
    requires LikeStore(gs)
    ensures AverageOf(gs, Eriksson) == 8.0
    ensures AverageOf(gs, Hellstrom) == 25.0 / 3.0 && AverageOf(gs, Wallin) == 25.0 / 3.0
  {
    PlayerGroup(gs, Eriksson, ScoreOf);
    PlayerGroup(gs, Hellstrom, ScoreOf);
    PlayerGroup(gs, Wallin, ScoreOf);
  }

  /** Every player's three prizeless records form one run of three. */
  lemma StoreStreaks(gs: seq<Game>)
    requires LikeStore(gs)
    ensures forall p :: StreakOf(gs, p) == 3
  {
    forall p
      ensures StreakOf(gs, p) == 3
    {
      StreakBound(gs, p);
      PlayerGroup(gs, p, WinOf);
    }
  }

  /** Hellström lost the least. */
  method StoreHighestTotalWins(gs: seq<Game>) returns (r: Standing)
    requires LikeStore(gs)
    ensures r == Standing(Hellstrom, -2400)
  {
    r := PlayerWithHighestTotalWins(gs);
    PlayerListing(gs);
    StoreNets(gs);
    assert NetResults(gs)(Hellstrom) == -2400;
  }

  /** Wallin lost the most. */
  method StoreMostLosses(gs: seq<Game>) returns (r: Standing)
    requires LikeStore(gs)
    ensures r == Standing(Wallin, -2640)
  {
    r := PlayerWithMostLosses(gs);
    PlayerListing(gs);
    StoreNets(gs);
    assert NetResults(gs)(Wallin) == -2640;
  }

  /** Hellström and Wallin share the best mean score; the tie goes to
      Wallin, listed later. */
  method StoreBestAverage(gs: seq<Game>) returns (best: AverageStanding)
    requires LikeStore(gs)
    ensures best == AverageStanding(Wallin, 25.0 / 3.0)
  {
    best := PlayerWithBestScoreAverage(gs);
    PlayerListing(gs);
    StoreAverages(gs);
    var ks := Keys(gs, PlayerOf);
    assert ks[1] == Hellstrom && ks[2] == Wallin;
    assert Averages(gs)(Eriksson) == 8.0;
    assert Averages(gs)(Hellstrom) == 25.0 / 3.0;
    assert Averages(gs)(Wallin) == 25.0 / 3.0;
  }

  /** Eriksson has the worst mean score. */
  method StoreWorstAverage(gs: seq<Game>) returns (worst: AverageStanding)
    requires LikeStore(gs)
    ensures worst == AverageStanding(Eriksson, 8.0)
  {
    worst := PlayerWithWorstScoreAverage(gs);
    PlayerListing(gs);
    StoreAverages(gs);
    var ks := Keys(gs, PlayerOf);
    assert ks[1] == Hellstrom && ks[2] == Wallin;
    assert Averages(gs)(Eriksson) == 8.0;
    assert Averages(gs)(Hellstrom) == 25.0 / 3.0;
    assert Averages(gs)(Wallin) == 25.0 / 3.0;
  }

  /** Every player's streak is 3; the first listed, Eriksson, keeps it. */
  method StoreLongestLosingStreak(gs: seq<Game>) returns (r: Ranked)
    requires LikeStore(gs)
    ensures r == Ranked(Eriksson, 3)
  {
    r := LongestLosingStreak(gs);
    PlayerListing(gs);
    StoreStreaks(gs);
    var ks := Keys(gs, PlayerOf);
    assert ks[0] == Eriksson;
    assert Streaks(gs)(Eriksson) == 3;
  }

  /** Nobody ever won, so every player is a candidate; Wallin staked the
      most. */
  method StoreMostInvestedNoWin(gs: seq<Game>) returns (r: Ranked)
    requires LikeStore(gs)
    ensures r == Ranked(Wallin, 2640)
  {
    r := PlayerWithMostInvestedNoWin(gs);
    PlayerListing(gs);
    StoreStakes(gs);
    assert Wallin in NeverWonPlayers(gs, Keys(gs, PlayerOf));
    assert Investments(gs)(Wallin) == 2640;
    assert Investments(gs)(Eriksson) == 2544;
    assert Investments(gs)(Hellstrom) == 2400;
  }

  /** Per type: Matematiskt has six records, stake 4896 and score 49;
      Reducerat three records, stake 2688 and score 25; neither won. */
  lemma StoreTypeFigures(gs: seq<Game>)
    requires LikeStore(gs)
    ensures |Members(gs, TypeOf, Mathematic)| == 6 && |Members(gs, TypeOf, Reduced)| == 3
    ensures Total(Members(gs, TypeOf, Mathematic), InvestedOf) == 4896
    ensures Total(Members(gs, TypeOf, Reduced), InvestedOf) == 2688
    ensures Total(Members(gs, TypeOf, Mathematic), WinOf) == 0 && Total(Members(gs, TypeOf, Reduced), WinOf) == 0
    ensures Total(Members(gs, TypeOf, Mathematic), ScoreOf) == 49
    ensures Total(Members(gs, TypeOf, Reduced), ScoreOf) == 25
  {
    ReducedGroup(gs, InvestedOf);
    ReducedGroup(gs, WinOf);
    ReducedGroup(gs, ScoreOf);
    StoreTotal(gs, InvestedOf);
    StoreTotal(gs, WinOf);
    StoreTotal(gs, ScoreOf);
    TypePartition(gs, InvestedOf);
    TypePartition(gs, WinOf);
    TypePartition(gs, ScoreOf);
  }

  /** The per-type statistics of the store. */
  method StoreTypeStats(gs: seq<Game>) returns (stats: map<GameType, TypeStats>)
    requires LikeStore(gs)
    ensures StatsOf(stats, Mathematic) == TypeStats(6, 4896, 0, 49)
    ensures StatsOf(stats, Reduced) == TypeStats(3, 2688, 0, 25)
  {
    stats := GameTypeStats(gs);
    StoreTypeFigures(gs);
    assert gs[0].gameType == Mathematic && gs[2].gameType == Reduced;
  }

  /** The listing of two records with different keys. */
  lemma KeysOfTwo<K>(ms: seq<Game>, key: Game -> K)
    requires |ms| == 2 && key(ms[0]) != key(ms[1])
    ensures Keys(ms, key) == [key(ms[0]), key(ms[1])]
  {
    var one := ms[..1];
    assert one[..0] == [];
    assert Keys(one, key) == [key(ms[0])];
    assert ms[..|ms| - 1] == one;
  }

  /** Two records matched six numbers: Eriksson's and Hellström's, one each. */
  lemma StoreSixes(gs: seq<Game>)
    requires LikeStore(gs)
    ensures var matching := Members(gs, ScoreOf, 6);
            && Keys(matching, PlayerOf) == [Eriksson, Hellstrom]
            && GroupSize(matching, PlayerOf)(Eriksson) == 1
            && GroupSize(matching, PlayerOf)(Hellstrom) == 1
  {
    var matching := Members(gs, ScoreOf, 6);
    MembersAt(gs, ScoreOf, 6, [4, 6]);
    KeysOfTwo(matching, PlayerOf);
    MembersAt(matching, PlayerOf, Eriksson, [0]);
    MembersAt(matching, PlayerOf, Hellstrom, [1]);
  }

  /** Eriksson and Hellström each matched six numbers once; the tie goes to
      Hellström, whose record came later. */
  method StoreMostSixes(gs: seq<Game>) returns (r: Ranked)
    requires LikeStore(gs)
    ensures r == Ranked(Hellstrom, 1)
  {
    r := PlayerWithMostScore(gs, 6);
    StoreSixes(gs);
    assert gs[4].score == 6;
  }

  /** Three records matched nine numbers, none of them with a prize. */
  lemma StoreNineMatches(gs: seq<Game>)
    requires LikeStore(gs)
    ensures NumberOfGamesWithScore(gs, 9) == ScoreTally(3, 0)
  {
    GroupOfThree(gs, ScoreOf, 9, 0, 5, 7, WinOf);
  }
}
