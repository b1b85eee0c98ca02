/** The record store: one lottery-pool entry per `Game`, the closed sets of
    players and game types, and the hand-maintained list of entries. */
module GameData {

  /** The three participants of the pool. */
  datatype Player = Wallin | Eriksson | Hellstrom

  /** The two game variants: "Reducerat" and "Matematiskt". */
  datatype GameType = Reduced | Mathematic

  /** A date of the Gregorian calendar as (year, month, day), written
      `YYYY-MM-DD` in the store; `ValidDate` says which triples name a
      real day. */
  datatype Date = Date(year: int, month: int, day: int)

  predicate LeapYear(y: int) {
    (y % 4 == 0 && y % 100 != 0) || y % 400 == 0
  }

  /** The number of days of a month of the Gregorian calendar. */
  function DaysInMonth(y: int, m: int): (n: int)
    requires 1 <= m <= 12
    ensures 28 <= n <= 31
    ensures n == 29 <==> m == 2 && LeapYear(y)
  {
    if m == 2 then (if LeapYear(y) then 29 else 28)
    else if m == 4 || m == 6 || m == 9 || m == 11 then 30
    else 31
  }

  predicate ValidDate(d: Date) {
    1 <= d.month <= 12 && 1 <= d.day <= DaysInMonth(d.year, d.month)
  }

  /** Chronological order on valid dates: lexicographic on (year, month, day). */
  predicate DateLeq(a: Date, b: Date) {
    a.year < b.year || (a.year == b.year && (a.month < b.month || (a.month == b.month && a.day <= b.day)))
  }

  predicate DateBefore(a: Date, b: Date) {
    DateLeq(a, b) && a != b
  }

  /** One entry: who played, which variant, how many numbers matched, the
      stake, the prize (0 when nothing was won) and the date of the draw. */
  datatype Game = Game(player: Player, gameType: GameType, score: int, invested: int, win: int, date: Date)

  /** What the authors of the store guarantee of each entry. */
  predicate WellFormed(g: Game) {
    g.score >= 0 && g.invested >= 0 && g.win >= 0 && ValidDate(g.date)
  }

  // Field selectors, passed as keys and summands to the generic folds.
  function PlayerOf(g: Game): Player { g.player }
  function TypeOf(g: Game): GameType { g.gameType }
  function ScoreOf(g: Game): int { g.score }
  function InvestedOf(g: Game): int { g.invested }
  function WinOf(g: Game): int { g.win }
  function DateOf(g: Game): Date { g.date }

  /** The store as shipped: nine entries, newest first. */
  const Fixture: seq<Game> := [
    Game(Eriksson, Mathematic, 9, 864, 0, Date(2025, 10, 25)),
    Game(Hellstrom, Mathematic, 11, 864, 0, Date(2025, 10, 18)),
    Game(Wallin, Reduced, 8, 912, 0, Date(2025, 10, 4)),
    Game(Hellstrom, Mathematic, 8, 768, 0, Date(2025, 9, 27)),
    Game(Eriksson, Mathematic, 6, 768, 0, Date(2025, 9, 21)),
    Game(Wallin, Mathematic, 9, 864, 0, Date(2025, 9, 13)),
    Game(Hellstrom, Mathematic, 6, 768, 0, Date(2025, 8, 30)),
    Game(Eriksson, Reduced, 9, 912, 0, Date(2025, 8, 23)),
    Game(Wallin, Reduced, 8, 864, 0, Date(2025, 8, 16))
  ]

  /** Lexicographic date order is a total order. */
  lemma DateLeqTotalOrder(a: Date, b: Date, c: Date)
    ensures DateLeq(a, a)
    ensures DateLeq(a, b) && DateLeq(b, a) ==> a == b
    ensures DateLeq(a, b) && DateLeq(b, c) ==> DateLeq(a, c)
    ensures DateLeq(a, b) || DateLeq(b, a)
  {
  }

  /** Every fixture entry is well formed, has no prize and a positive stake,
      and the entries are strictly newest first. */
  lemma FixtureShape()
    ensures |Fixture| == 9
    ensures forall i :: 0 <= i < |Fixture| ==> WellFormed(Fixture[i]) && Fixture[i].win == 0 && Fixture[i].invested > 0
    ensures forall i, j :: 0 <= i < j < |Fixture| ==> DateBefore(Fixture[j].date, Fixture[i].date)
    ensures Fixture[0].date == Date(2025, 10, 25) && Fixture[8].date == Date(2025, 8, 16)
  {
  }
}
