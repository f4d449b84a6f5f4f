/** Fixture generation by the circle method (`generateRoundRobin`, app.js:209-266). */
module Schedule {
  import opened LeagueModel

  /** `doubleRound` adds a second leg; `homeAway` swaps home and away in it. */
  datatype Options = Options(doubleRound: bool, homeAway: bool)

  /** A scheduled pairing, before it becomes an unplayed Match record. */
  datatype Pairing = Pairing(round: int, homeId: Id, awayId: Id)

  /** The working list of the circle method: the team ids, then a bye slot
      (the source's `null`) when the number of teams is odd. */
  function Slots(ids: seq<Id>): (list: seq<Option<Id>>)
    ensures |list| == if |ids| % 2 == 1 then |ids| + 1 else |ids|
    ensures |list| % 2 == 0
    ensures forall i :: 0 <= i < |ids| ==> list[i] == Some(ids[i])
    ensures |ids| % 2 == 1 ==> list[|ids|] == None
  {
    var base := seq(|ids|, i requires 0 <= i < |ids| => Some(ids[i]));
    if |ids| % 2 == 1 then base + [None] else base
  }

  /** Which entry of the working list stands at position `p` after `q` rotations:
      position 0 never moves, positions 1..n-1 have turned `q` steps to the right. */
  function SlotAt(n: nat, q: nat, p: nat): (s: nat)
    requires 2 <= n && q < n && p < n
    ensures s < n && (s == 0 <==> p == 0)
  {
    if p == 0 then 0 else if p - 1 >= q then p - q else p - q + (n - 1)
  }

  /** The rotation after each round: slot 0 stays, the last slot moves to
      position 1 and the others move one position to the right. */
  function Rotate(arr: seq<Option<Id>>): (next: seq<Option<Id>>)
    requires |arr| >= 2
    ensures |next| == |arr|
  {
    [arr[0], arr[|arr| - 1]] + arr[1..|arr| - 1]
  }

  /** The working list after `q` rotations, in closed form: position `p` holds
      the entry `SlotAt` names. `RotateStep` ties it to `Rotate`. */
  function Arrangement(list: seq<Option<Id>>, q: nat): (arr: seq<Option<Id>>)
    requires 2 <= |list| && q < |list|
    ensures |arr| == |list|
  {
    seq(|list|, p requires 0 <= p < |list| => list[SlotAt(|list|, q, p)])
  }

  /** The pairing of `a` and `b` in round `r`: `a` is at home when `homeFirst`. */
  function MakePairing(r: int, homeFirst: bool, a: Id, b: Id): Pairing {
    if homeFirst then Pairing(r, a, b) else Pairing(r, b, a)
  }

  /** The pairings of round `r` from the first `count` position pairs `(i, n-1-i)`,
      skipping those that include the bye. */
  function RoundPairings(arr: seq<Option<Id>>, r: int, homeFirst: bool, count: nat): seq<Pairing>
    requires 2 * count <= |arr|
  {
    if count == 0 then []
    else
      var i := count - 1;
      var a, b := arr[i], arr[|arr| - 1 - i];
      RoundPairings(arr, r, homeFirst, i)
        + (if a.None? || b.None? then [] else [MakePairing(r, homeFirst, a.value, b.value)])
  }

  /** The pairings of round `r` (1-based) of the leg built from `list`; the first
      slot of each pair is at home in odd rounds. */
  function Block(list: seq<Option<Id>>, r: nat): seq<Pairing>
    requires 2 <= |list| && 1 <= r < |list|
  {
    RoundPairings(Arrangement(list, r - 1), r, r % 2 == 1, |list| / 2)
  }

  /** Rounds 1..q of the leg, one entry per round. */
  function Rounds(list: seq<Option<Id>>, q: nat): (rounds: seq<seq<Pairing>>)
    requires 2 <= |list| && q < |list|
    ensures |rounds| == q
  {
    seq(q, k requires 0 <= k < q => Block(list, k + 1))
  }

  /** The rounds one after the other: the source's `fixtures.flat()`. */
  function Flatten(rounds: seq<seq<Pairing>>): seq<Pairing> {
    if rounds == [] then [] else Flatten(rounds[..|rounds| - 1]) + rounds[|rounds| - 1]
  }

  /** Number of rounds of one leg: the working list's length minus one. */
  function LegRounds(ids: seq<Id>): nat {
    if |ids| < 2 then 0 else |Slots(ids)| - 1
  }

  /** The first leg: all `n-1` rounds. */
  function FirstLeg(ids: seq<Id>): seq<Pairing> {
    if |ids| < 2 then [] else Flatten(Rounds(Slots(ids), |Slots(ids)| - 1))
  }

  /** The second leg replays the first, `rounds` rounds later, home and away
      swapped when `swap` is set. */
  function SecondLeg(leg: seq<Pairing>, rounds: nat, swap: bool): (second: seq<Pairing>)
    ensures |second| == |leg|
  {
    seq(|leg|, k requires 0 <= k < |leg| =>
      Pairing(leg[k].round + rounds,
              if swap then leg[k].awayId else leg[k].homeId,
              if swap then leg[k].homeId else leg[k].awayId))
  }

  /** Every pairing the generator produces, in output order. */
  function Fixtures(ids: seq<Id>, opts: Options): seq<Pairing> {
    if |ids| < 2 then []
    else FirstLeg(ids) + (if opts.doubleRound then SecondLeg(FirstLeg(ids), LegRounds(ids), opts.homeAway) else [])
  }

  /** Turns pairings into unplayed matches; the k-th gets the id minted by the
      `(offset + k)`-th call of the id source. */
  function Unplayed(ps: seq<Pairing>, mint: nat -> Id, offset: nat): (ms: seq<Match>)
    ensures |ms| == |ps|
  {
    seq(|ps|, k requires 0 <= k < |ps| =>
      Match(mint(offset + k), ps[k].round, ps[k].homeId, ps[k].awayId, None, None, None))
  }

  /** The match list the generator returns. */
  function Schedule(ids: seq<Id>, opts: Options, mint: nat -> Id): seq<Match> {
    Unplayed(Fixtures(ids, opts), mint, 0)
  }

  /** Before any rotation the arrangement is the working list itself. */
  lemma ArrangementStart(list: seq<Option<Id>>)
    requires 2 <= |list|
    ensures Arrangement(list, 0) == list
  {
    assert forall p :: 0 <= p < |list| ==> Arrangement(list, 0)[p] == list[p];
  }

  /** Playing round `q + 1` appends it to the rounds played so far. */
  lemma RoundsStep(list: seq<Option<Id>>, q: nat)
    requires 2 <= |list| && q + 1 < |list|
    ensures Rounds(list, q + 1) == Rounds(list, q) + [Block(list, q + 1)]
  {
    assert forall k :: 0 <= k < q ==> Rounds(list, q + 1)[k] == Rounds(list, q)[k];
  }

  /** One more rotation of the closed form gives the next arrangement. */
  lemma RotateStep(list: seq<Option<Id>>, q: nat)
    requires 2 <= |list| && q + 1 < |list|
    ensures Rotate(Arrangement(list, q)) == Arrangement(list, q + 1)
  {
    var arr, next := Arrangement(list, q), Arrangement(list, q + 1);
    var n := |list|;
    forall p | 0 <= p < n ensures Rotate(arr)[p] == next[p] {
      if p == 0 {
      } else if p == 1 {
        assert Rotate(arr)[1] == arr[n - 1];
      } else {
        assert Rotate(arr)[p] == arr[p - 1];
      }
    }
  }

  lemma UnplayedAppend(a: seq<Pairing>, b: seq<Pairing>, mint: nat -> Id)
    ensures Unplayed(a + b, mint, 0) == Unplayed(a, mint, 0) + Unplayed(b, mint, |a|)
  {
  }

  /** Consecutive rounds have opposite parity. */
  lemma Parity(k: nat)
    ensures ((k + 1) % 2 == 1) == (k % 2 == 0)
    ensures ((k + 1) % 2 == 0) == (k % 2 == 1)
  {
  }

  /** The circle method, as the source runs it: `n - 1` rounds over a working list
      that is rotated after every round, the home side alternating by round.
      `mint(k)` stands for the id the k-th call of the id source returns. */
  method GenerateRoundRobin(teams: seq<Team>, opts: Options, mint: nat -> Id) returns (matches: seq<Match>)
    ensures matches == Schedule(TeamIds(teams), opts, mint)
  {
    var ids := TeamIds(teams);
    if |ids| < 2 {
      return [];
    }
    var list := WorkingList(ids);
    var rounds := |list| - 1;
    var byRound := BuildLeg(list);
    var fixtures := Flatten(byRound);
    var flat := Unplayed(fixtures, mint, 0);
    if opts.doubleRound {
      var second := Unplayed(SecondLeg(fixtures, rounds, opts.homeAway), mint, |fixtures|);
      matches := flat + second;
    } else {
      matches := flat;
    }
    ScheduleSplit(ids, opts, mint, list, fixtures);
  }

  /** The schedule is the first leg's matches, then the second leg's with the ids
      that follow. */
  lemma ScheduleSplit(ids: seq<Id>, opts: Options, mint: nat -> Id, list: seq<Option<Id>>, leg: seq<Pairing>)
    requires |ids| >= 2 && list == Slots(ids) && leg == Flatten(Rounds(list, |list| - 1))
    ensures Schedule(ids, opts, mint)
        == Unplayed(leg, mint, 0)
           + (if opts.doubleRound then Unplayed(SecondLeg(leg, |list| - 1, opts.homeAway), mint, |leg|) else [])
  {
    var second := if opts.doubleRound then SecondLeg(leg, |list| - 1, opts.homeAway) else [];
    FixturesSplit(ids, opts, list, leg);
    UnplayedAppend(leg, second, mint);
  }

  lemma FixturesSplit(ids: seq<Id>, opts: Options, list: seq<Option<Id>>, leg: seq<Pairing>)
    requires |ids| >= 2 && list == Slots(ids) && leg == Flatten(Rounds(list, |list| - 1))
    ensures Fixtures(ids, opts) == leg + (if opts.doubleRound then SecondLeg(leg, |list| - 1, opts.homeAway) else [])
  {
  }

  /** The rounds loop of the generator; `done` counts the rounds played so far.
      Round `r` is stored at index `r - 1`, as the source's `fixtures` array of rounds. */
  method BuildLeg(list: seq<Option<Id>>) returns (fixtures: seq<seq<Pairing>>)
    requires 2 <= |list| && |list| % 2 == 0
    ensures fixtures == Rounds(list, |list| - 1)
  {
    var rounds: nat := |list| - 1;
    var homeFirst := true;
    fixtures := [];
    var arr := list;
    var done: nat := 0;
    ArrangementStart(list);
    while done < rounds
      invariant done <= rounds
      invariant homeFirst == (done % 2 == 0)
      invariant arr == Arrangement(list, done)
      invariant fixtures == Rounds(list, done)
    {
      Parity(done);
      var pairs := PairUp(arr, done + 1, homeFirst);
      RoundsStep(list, done);
      fixtures := fixtures + [pairs];
      arr := RotateKeepFirst(arr);
      RotateStep(list, done);
      homeFirst := !homeFirst;
      done := done + 1;
    }
  }

  /** One round of the circle method: slot `i` meets slot `n-1-i`, pairs with the
      bye are skipped. */
  method PairUp(arr: seq<Option<Id>>, r: int, homeFirst: bool) returns (pairs: seq<Pairing>)
    requires |arr| % 2 == 0
    ensures pairs == RoundPairings(arr, r, homeFirst, |arr| / 2)
  {
    var n := |arr|;
    var half := n / 2;
    pairs := [];
    var i := 0;
    while i < half
      invariant 0 <= i <= half
      invariant pairs == RoundPairings(arr, r, homeFirst, i)
    {
      var a := arr[i];
      var b := arr[n - 1 - i];
      if a.Some? && b.Some? {
        var home := if homeFirst then a.value else b.value;
        var away := if homeFirst then b.value else a.value;
        pairs := pairs + [Pairing(r, home, away)];
      }
      i := i + 1;
    }
  }

  /** The rotation after each round, as the source writes it: take the fixed
      first slot off, move the last of the rest to its front, put the first back. */
  method RotateKeepFirst(arr: seq<Option<Id>>) returns (next: seq<Option<Id>>)
    requires |arr| >= 2
    ensures next == Rotate(arr)
  {
    var fixed := arr[0];
    var rest := arr[1..];
    rest := [rest[|rest| - 1]] + rest[..|rest| - 1];
    next := [fixed] + rest;
  }

  /** The ids, plus the bye slot when their number is odd. */
  method WorkingList(ids: seq<Id>) returns (list: seq<Option<Id>>)
    ensures list == Slots(ids)
  {
    var isOdd := |ids| % 2 == 1;
    list := seq(|ids|, i requires 0 <= i < |ids| => Some(ids[i]));
    if isOdd {
      list := list + [None];
    }
  }
}
