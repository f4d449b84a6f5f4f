/** Round navigation on the schedule tab: `clamp` (app.js:11), `maxRound`
    (app.js:430-432), the round shown by `renderSchedule` (app.js:436) and the
    previous / next buttons (app.js:1542-1553). The selected round is passed in
    and returned instead of living in the global selection; a stored round of 0
    stands for the unset value that `|| 1` replaces. */
module RoundNavigation {
  import opened LeagueModel

  /** `Math.max(a, Math.min(b, n))`. */
  function Clamp(n: int, a: int, b: int): (r: int)
    ensures a <= b ==> a <= r <= b
    ensures a <= n <= b ==> r == n
    ensures n < a ==> r == a
    ensures a <= b < n ==> r == b
    ensures b < a ==> r == a
  {
    if b < n then (if a < b then b else a) else if a < n then n else a
  }

  /** `x || 1` on an integer: zero falls back on 1. */
  function OrOne(x: int): int {
    if x == 0 then 1 else x
  }

  /** `Math.max(1, ...div.matches.map(m => m.round || 1))`. */
  function MaxRound(matches: seq<Match>): (top: int)
    ensures top >= 1
    ensures forall i :: 0 <= i < |matches| ==> OrOne(matches[i].round) <= top
    ensures top == 1 || exists i :: 0 <= i < |matches| && OrOne(matches[i].round) == top
  {
    if matches == [] then 1
    else
      var rest := MaxRound(matches[1..]);
      assert forall i :: 1 <= i < |matches| ==> matches[i] == matches[1..][i - 1];
      var here := OrOne(matches[0].round);
      if here > rest then here else rest
  }

  /** The round `renderSchedule` shows and stores back. */
  function ShownRound(selected: int, matches: seq<Match>): int {
    Clamp(OrOne(selected), 1, MaxRound(matches))
  }

  /** The "previous round" button. */
  function PrevRound(selected: int, matches: seq<Match>): int {
    Clamp(OrOne(selected) - 1, 1, MaxRound(matches))
  }

  /** The "next round" button. */
  function NextRound(selected: int, matches: seq<Match>): int {
    Clamp(OrOne(selected) + 1, 1, MaxRound(matches))
  }

  /** Every round the tab can land on is a real round number of the division,
      and a shown round is shown again unchanged. */
  lemma RoundsInRange(selected: int, matches: seq<Match>)
    ensures var top := MaxRound(matches);
            1 <= ShownRound(selected, matches) <= top
            && 1 <= PrevRound(selected, matches) <= top
            && 1 <= NextRound(selected, matches) <= top
    ensures ShownRound(ShownRound(selected, matches), matches) == ShownRound(selected, matches)
  {
  }

  /** From a shown round, "next" moves one round on until the last round and
      then stays; "previous" moves one back until round 1 and then stays. */
  lemma Steps(r: int, matches: seq<Match>)
    requires 1 <= r <= MaxRound(matches)
    ensures NextRound(r, matches) == if r < MaxRound(matches) then r + 1 else r
    ensures PrevRound(r, matches) == if r > 1 then r - 1 else r
  {
  }

  /** "previous" undoes "next" and "next" undoes "previous" away from the ends. */
  lemma StepsUndo(r: int, matches: seq<Match>)
    requires 1 <= r < MaxRound(matches)
    ensures PrevRound(NextRound(r, matches), matches) == r
    ensures NextRound(PrevRound(r + 1, matches), matches) == r + 1
  {
  }
}
