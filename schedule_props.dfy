/** What the circle method guarantees about the fixtures `generateRoundRobin`
    produces (app.js:209-266): every pair of teams meets exactly once per leg, no
    team plays twice in a round, each team sits out exactly one round when the
    number of teams is odd, the first team alternates home and away, and the
    second leg mirrors the first. */
module ScheduleProperties {
  import opened LeagueModel
  import opened Schedule

  // ---------------------------------------------------------------------------
  // Positions in the rotating working list

  /** Where entry `s` of the working list stands after `q` rotations: the
      inverse of `SlotAt`. */
  function Pos(n: nat, q: nat, s: nat): (p: nat)
    requires 2 <= n && q < n && s < n
    ensures p < n && SlotAt(n, q, p) == s
  {
    if s == 0 then 0 else if s + q <= n - 1 then s + q else s + q - (n - 1)
  }

  lemma SlotAtInjective(n: nat, q: nat, p1: nat, p2: nat)
    requires 2 <= n && q < n && p1 < n && p2 < n
    requires SlotAt(n, q, p1) == SlotAt(n, q, p2)
    ensures p1 == p2
  {
  }

  /** The round (counted from 0) in which entries `u` and `v` of the working list
      meet: the unique number of rotations that puts them at opposite positions. */
  function MeetRound(n: nat, u: nat, v: nat): (q: nat)
    requires 2 <= n && n % 2 == 0 && u < n && v < n && u != v
    ensures q < n - 1
  {
    var m := n - 1;
    if u == 0 then m - v
    else if v == 0 then m - u
    else if (u + v) % 2 == 0 then m - (u + v) / 2
    else if u + v <= m then (m - (u + v)) / 2
    else (3 * m - (u + v)) / 2
  }

  /** Entries `u` and `v` stand at opposite positions (`p` and `n-1-p`) after
      `q` rotations exactly when `q` is their meeting round. */
  lemma PairedIff(n: nat, q: nat, u: nat, v: nat)
    requires 2 <= n && n % 2 == 0 && q < n - 1 && u < n && v < n && u != v
    ensures Pos(n, q, u) + Pos(n, q, v) == n - 1 <==> q == MeetRound(n, u, v)
  {
  }

  // ---------------------------------------------------------------------------
  // Counting pairings

  /** How many of the pairings have `x` at home against `y`. */
  function Hosted(ps: seq<Pairing>, x: Id, y: Id): nat {
    if ps == [] then 0
    else Hosted(ps[..|ps| - 1], x, y) + (if ps[|ps| - 1].homeId == x && ps[|ps| - 1].awayId == y then 1 else 0)
  }

  /** How many of the pairings bring `a` and `b` together, either way round. */
  function Meetings(ps: seq<Pairing>, a: Id, b: Id): nat {
    Hosted(ps, a, b) + Hosted(ps, b, a)
  }

  /** How many of the pairings `x` takes part in. */
  function Involving(ps: seq<Pairing>, x: Id): nat {
    if ps == [] then 0
    else Involving(ps[..|ps| - 1], x) + (if ps[|ps| - 1].homeId == x || ps[|ps| - 1].awayId == x then 1 else 0)
  }

  lemma {:induction false} HostedAppend(a: seq<Pairing>, b: seq<Pairing>, x: Id, y: Id)
    ensures Hosted(a + b, x, y) == Hosted(a, x, y) + Hosted(b, x, y)
  {
    if b == [] {
      assert a + b == a;
    } else {
      HostedAppend(a, b[..|b| - 1], x, y);
      assert (a + b)[..|a + b| - 1] == a + b[..|b| - 1];
    }
  }

  lemma {:induction false} InvolvingAppend(a: seq<Pairing>, b: seq<Pairing>, x: Id)
    ensures Involving(a + b, x) == Involving(a, x) + Involving(b, x)
  {
    if b == [] {
      assert a + b == a;
    } else {
      InvolvingAppend(a, b[..|b| - 1], x);
      assert (a + b)[..|a + b| - 1] == a + b[..|b| - 1];
    }
  }

  lemma CountSingle(p: Pairing, x: Id, y: Id)
    ensures Hosted([p], x, y) == if p.homeId == x && p.awayId == y then 1 else 0
    ensures Involving([p], x) == if p.homeId == x || p.awayId == x then 1 else 0
  {
    assert [p][..0] == [];
  }

  // ---------------------------------------------------------------------------
  // One round: slot `i` meets slot `n-1-i`

  /** Both slots of position pair `i` hold a team. */
  predicate Full(arr: seq<Option<Id>>, i: nat)
    requires i < |arr|
  {
    arr[i].Some? && arr[|arr| - 1 - i].Some?
  }

  /** Position pair `i` puts `x` at home against `y`. */
  predicate Hosts(arr: seq<Option<Id>>, hf: bool, i: nat, x: Id, y: Id)
    requires i < |arr|
  {
    if hf then arr[i] == Some(x) && arr[|arr| - 1 - i] == Some(y)
    else arr[|arr| - 1 - i] == Some(x) && arr[i] == Some(y)
  }

  /** Position pair `i` is a match that `x` plays in. */
  predicate Plays(arr: seq<Option<Id>>, i: nat, x: Id)
    requires i < |arr|
  {
    Full(arr, i) && (arr[i] == Some(x) || arr[|arr| - 1 - i] == Some(x))
  }

  lemma StepHosted(arr: seq<Option<Id>>, r: int, hf: bool, c: nat, x: Id, y: Id)
    requires 1 <= c && 2 * c <= |arr|
    ensures Hosted(RoundPairings(arr, r, hf, c), x, y)
         == Hosted(RoundPairings(arr, r, hf, c - 1), x, y) + (if Hosts(arr, hf, c - 1, x, y) then 1 else 0)
  {
    var i := c - 1;
    var a, b := arr[i], arr[|arr| - 1 - i];
    var tail := if a.None? || b.None? then [] else [MakePairing(r, hf, a.value, b.value)];
    var prev := RoundPairings(arr, r, hf, c - 1);
    assert RoundPairings(arr, r, hf, c) == prev + tail;
    HostedAppend(prev, tail, x, y);
    if tail != [] {
      CountSingle(tail[0], x, y);
      assert Hosted(tail, x, y) == if Hosts(arr, hf, i, x, y) then 1 else 0;
    } else {
      assert Hosted(tail, x, y) == 0;
    }
  }

  lemma StepInvolving(arr: seq<Option<Id>>, r: int, hf: bool, c: nat, x: Id)
    requires 1 <= c && 2 * c <= |arr|
    ensures Involving(RoundPairings(arr, r, hf, c), x)
         == Involving(RoundPairings(arr, r, hf, c - 1), x) + (if Plays(arr, c - 1, x) then 1 else 0)
  {
    var i := c - 1;
    var a, b := arr[i], arr[|arr| - 1 - i];
    var tail := if a.None? || b.None? then [] else [MakePairing(r, hf, a.value, b.value)];
    var prev := RoundPairings(arr, r, hf, c - 1);
    assert RoundPairings(arr, r, hf, c) == prev + tail;
    InvolvingAppend(prev, tail, x);
    if tail != [] {
      CountSingle(tail[0], x, x);
      assert Involving(tail, x) == if Plays(arr, i, x) then 1 else 0;
    } else {
      assert Involving(tail, x) == 0;
    }
  }

  lemma StepLength(arr: seq<Option<Id>>, r: int, hf: bool, c: nat)
    requires 1 <= c && 2 * c <= |arr|
    ensures |RoundPairings(arr, r, hf, c)| == |RoundPairings(arr, r, hf, c - 1)| + (if Full(arr, c - 1) then 1 else 0)
  {
  }

  /** How many of the first `c` position pairs put `x` at home against `y`. */
  function HostsUpTo(arr: seq<Option<Id>>, hf: bool, c: nat, x: Id, y: Id): nat
    requires 2 * c <= |arr|
  {
    if c == 0 then 0 else HostsUpTo(arr, hf, c - 1, x, y) + (if Hosts(arr, hf, c - 1, x, y) then 1 else 0)
  }

  lemma {:induction false} HostedCount(arr: seq<Option<Id>>, r: int, hf: bool, c: nat, x: Id, y: Id)
    requires 2 * c <= |arr|
    ensures Hosted(RoundPairings(arr, r, hf, c), x, y) == HostsUpTo(arr, hf, c, x, y)
  {
    if c > 0 {
      HostedCount(arr, r, hf, c - 1, x, y);
      StepHosted(arr, r, hf, c, x, y);
    }
  }

  /** `x` hosts `y` in a round exactly when they stand at opposite positions and
      `x` is on the side that is at home this round. */
  lemma {:induction false} RoundHosted(arr: seq<Option<Id>>, hf: bool, c: nat,
                                       x: Id, y: Id, px: nat, py: nat)
    requires 2 * c <= |arr| && Distinct(arr) && x != y
    requires px < |arr| && py < |arr| && arr[px] == Some(x) && arr[py] == Some(y)
    ensures HostsUpTo(arr, hf, c, x, y)
         == if px + py == |arr| - 1 && (if hf then px < c else py < c) then 1 else 0
  {
    if c > 0 {
      RoundHosted(arr, hf, c - 1, x, y, px, py);
      var i, j := c - 1, |arr| - c;
      DistinctAt(arr, i, px);
      DistinctAt(arr, j, px);
      DistinctAt(arr, i, py);
      DistinctAt(arr, j, py);
      if hf {
        assert Hosts(arr, hf, i, x, y) <==> i == px && j == py;
      } else {
        assert Hosts(arr, hf, i, x, y) <==> j == px && i == py;
      }
    }
  }

  /** How many of the first `c` position pairs are matches `x` plays in. */
  function PlaysUpTo(arr: seq<Option<Id>>, c: nat, x: Id): nat
    requires 2 * c <= |arr|
  {
    if c == 0 then 0 else PlaysUpTo(arr, c - 1, x) + (if Plays(arr, c - 1, x) then 1 else 0)
  }

  /** How many of the first `c` position pairs hold two teams. */
  function FullUpTo(arr: seq<Option<Id>>, c: nat): nat
    requires 2 * c <= |arr|
  {
    if c == 0 then 0 else FullUpTo(arr, c - 1) + (if Full(arr, c - 1) then 1 else 0)
  }

  lemma {:induction false} InvolvingCount(arr: seq<Option<Id>>, r: int, hf: bool, c: nat, x: Id)
    requires 2 * c <= |arr|
    ensures Involving(RoundPairings(arr, r, hf, c), x) == PlaysUpTo(arr, c, x)
  {
    if c > 0 {
      InvolvingCount(arr, r, hf, c - 1, x);
      StepInvolving(arr, r, hf, c, x);
    }
  }

  lemma {:induction false} LengthCount(arr: seq<Option<Id>>, r: int, hf: bool, c: nat)
    requires 2 * c <= |arr|
    ensures |RoundPairings(arr, r, hf, c)| == FullUpTo(arr, c)
  {
    if c > 0 {
      LengthCount(arr, r, hf, c - 1);
      StepLength(arr, r, hf, c);
    }
  }

  /** `x` plays in a round exactly when the slot opposite it is not the bye. */
  lemma {:induction false} RoundInvolving(arr: seq<Option<Id>>, c: nat, x: Id, px: nat)
    requires 2 * c <= |arr| && Distinct(arr)
    requires px < |arr| && arr[px] == Some(x)
    ensures PlaysUpTo(arr, c, x)
         == if (px < c || |arr| - 1 - px < c) && arr[|arr| - 1 - px].Some? then 1 else 0
  {
    if c > 0 {
      RoundInvolving(arr, c - 1, x, px);
      var i, j := c - 1, |arr| - c;
      DistinctAt(arr, i, px);
      DistinctAt(arr, j, px);
      assert Plays(arr, i, x) <==> (i == px || j == px) && arr[|arr| - 1 - px].Some?;
    }
  }

  /** A round has one pairing per position pair, less the one holding the bye
      slot `z` (`z == |arr|` when there is none). */
  lemma {:induction false} RoundLength(arr: seq<Option<Id>>, c: nat, z: nat)
    requires 2 * c <= |arr| && z <= |arr|
    requires forall i :: 0 <= i < |arr| ==> (arr[i].None? <==> i == z)
    ensures FullUpTo(arr, c) == c - (if z < |arr| && (z < c || |arr| - 1 - z < c) then 1 else 0)
  {
    if c > 0 {
      RoundLength(arr, c - 1, z);
      assert Full(arr, c - 1) <==> z != c - 1 && z != |arr| - c;
    }
  }

  /** Every pairing of a round carries the round number and two different teams
      from the working list; the team in the first slot is at home exactly when
      the round's home side is the first one. */
  lemma {:induction false} RoundShape(arr: seq<Option<Id>>, r: int, hf: bool, c: nat)
    requires 2 <= |arr| && 2 * c <= |arr| && Distinct(arr) && arr[0].Some?
    ensures forall k :: 0 <= k < |RoundPairings(arr, r, hf, c)| ==> ShapedAt(RoundPairings(arr, r, hf, c)[k], r, arr, hf)
  {
    if c > 0 {
      RoundShape(arr, r, hf, c - 1);
      var i, j := c - 1, |arr| - c;
      var prev := RoundPairings(arr, r, hf, c - 1);
      var a, b := arr[i], arr[j];
      var tail := if a.None? || b.None? then [] else [MakePairing(r, hf, a.value, b.value)];
      var ps := RoundPairings(arr, r, hf, c);
      assert ps == prev + tail;
      if tail != [] {
        DistinctAt(arr, i, j);
        DistinctAt(arr, i, 0);
        DistinctAt(arr, j, 0);
        assert a in arr && b in arr;
        assert ShapedAt(tail[0], r, arr, hf);
      }
      forall k | 0 <= k < |ps|
        ensures ShapedAt(ps[k], r, arr, hf)
      {
        if k < |prev| {
          assert ps[k] == prev[k];
          assert ShapedAt(prev[k], r, arr, hf);
        } else {
          assert tail != [];
          assert ps[k] == tail[0];
          assert ShapedAt(tail[0], r, arr, hf);
        }
      }
    }
  }

  /** A pairing of round `r` played between two different teams of the working
      list `arr`, in which the team in the first slot is at home exactly when
      `hf` holds. */
  predicate ShapedAt(p: Pairing, r: int, arr: seq<Option<Id>>, hf: bool)
    requires 1 <= |arr| && arr[0].Some?
  {
    && p.round == r
    && p.homeId != p.awayId
    && Some(p.homeId) in arr && Some(p.awayId) in arr
    && ((p.homeId == arr[0].value || p.awayId == arr[0].value) ==> (p.homeId == arr[0].value <==> hf))
  }

  // ---------------------------------------------------------------------------
  // The working list and its rotations

  lemma SlotsDistinct(ids: seq<Id>)
    requires Distinct(ids)
    ensures Distinct(Slots(ids))
  {
    var list := Slots(ids);
    forall i, j | 0 <= i < j < |list|
      ensures list[i] != list[j]
    {
      if j < |ids| {
        DistinctAt(ids, i, j);
      }
    }
  }

  /** Entry `i` of `list` is the bye exactly when `i == bye`; a `bye` out of
      range means there is none. */
  predicate ByeAt(list: seq<Option<Id>>, bye: nat) {
    forall i :: 0 <= i < |list| ==> (list[i].None? <==> i == bye)
  }

  /** A working list for the circle method over `teams`: even length, no
      repeats, the first team in front, the bye only at `bye`, and teams of
      `teams` in every other slot. */
  predicate Circle(list: seq<Option<Id>>, teams: seq<Id>, bye: nat) {
    && 2 <= |list| && |list| % 2 == 0 && Distinct(list) && ByeAt(list, bye)
    && |teams| > 0 && list[0] == Some(teams[0])
    && (forall i :: 0 <= i < |list| && list[i].Some? ==> list[i].value in teams)
  }

  /** The working list has its bye, if any, right after the teams. */
  lemma SlotsByeAt(ids: seq<Id>)
    ensures ByeAt(Slots(ids), |ids|)
  {
  }

  lemma SlotsCircle(ids: seq<Id>)
    requires Distinct(ids) && 2 <= |ids|
    ensures Circle(Slots(ids), ids, |ids|)
  {
    SlotsDistinct(ids);
    SlotsByeAt(ids);
  }

  lemma CircleMember(list: seq<Option<Id>>, teams: seq<Id>, bye: nat, x: Id)
    requires Circle(list, teams, bye)
    ensures Some(x) in list ==> x in teams
  {
    if Some(x) in list {
      var i :| 0 <= i < |list| && list[i] == Some(x);
    }
  }

  lemma ArrangementDistinct(list: seq<Option<Id>>, q: nat)
    requires 2 <= |list| && q < |list| && Distinct(list)
    ensures Distinct(Arrangement(list, q))
  {
    var arr := Arrangement(list, q);
    forall i, j | 0 <= i < j < |arr|
      ensures arr[i] != arr[j]
    {
      if SlotAt(|list|, q, i) == SlotAt(|list|, q, j) {
        SlotAtInjective(|list|, q, i, j);
      }
      DistinctAt(list, SlotAt(|list|, q, i), SlotAt(|list|, q, j));
    }
  }

  lemma ArrangementMember(list: seq<Option<Id>>, q: nat, e: Option<Id>)
    requires 2 <= |list| && q < |list|
    ensures e in Arrangement(list, q) ==> e in list
  {
    if e in Arrangement(list, q) {
      var p :| 0 <= p < |list| && Arrangement(list, q)[p] == e;
    }
  }

  /** After `q` rotations, entry `s` stands at position `Pos(n, q, s)`. */
  lemma ArrangementPos(list: seq<Option<Id>>, q: nat, s: nat)
    requires 2 <= |list| && q < |list| && s < |list|
    ensures Arrangement(list, q)[Pos(|list|, q, s)] == list[s]
  {
  }

  // ---------------------------------------------------------------------------
  // One round of the leg

  /** In a full round, two teams meet exactly when they stand at opposite positions. */
  lemma RoundMeetings(arr: seq<Option<Id>>, n: nat, r: int, hf: bool, x: Id, y: Id, px: nat, py: nat)
    requires |arr| == n && n % 2 == 0 && Distinct(arr) && x != y
    requires px < n && py < n && arr[px] == Some(x) && arr[py] == Some(y)
    ensures Meetings(RoundPairings(arr, r, hf, n / 2), x, y) == if px + py == n - 1 then 1 else 0
  {
    HostedCount(arr, r, hf, n / 2, x, y);
    HostedCount(arr, r, hf, n / 2, y, x);
    RoundHosted(arr, hf, n / 2, x, y, px, py);
    RoundHosted(arr, hf, n / 2, y, x, py, px);
  }

  /** Round `r` of a leg built from a working list without repeats: two teams
      meet once if they stand at opposite positions, and not at all otherwise. */
  lemma BlockMeets(list: seq<Option<Id>>, r: nat, x: Id, y: Id, px: nat, py: nat)
    requires 2 <= |list| && |list| % 2 == 0 && 1 <= r < |list| && Distinct(Arrangement(list, r - 1)) && x != y
    requires px < |list| && py < |list|
    requires Arrangement(list, r - 1)[px] == Some(x) && Arrangement(list, r - 1)[py] == Some(y)
    ensures Meetings(Block(list, r), x, y) == if px + py == |list| - 1 then 1 else 0
  {
    assert Block(list, r) == RoundPairings(Arrangement(list, r - 1), r, r % 2 == 1, |list| / 2);
    RoundMeetings(Arrangement(list, r - 1), |list|, r, r % 2 == 1, x, y, px, py);
  }

  /** In a full round, a team plays once unless the slot opposite it is the bye. */
  lemma RoundPlays(arr: seq<Option<Id>>, n: nat, r: int, hf: bool, x: Id, px: nat)
    requires |arr| == n && n % 2 == 0 && Distinct(arr)
    requires px < n && arr[px] == Some(x)
    ensures Involving(RoundPairings(arr, r, hf, n / 2), x) == if arr[n - 1 - px].Some? then 1 else 0
  {
    InvolvingCount(arr, r, hf, n / 2, x);
    RoundInvolving(arr, n / 2, x, px);
  }

  /** Round `r` of a leg built from a working list without repeats: a team plays
      once unless the slot opposite it is the bye. */
  lemma BlockPlays(list: seq<Option<Id>>, r: nat, x: Id, px: nat)
    requires 2 <= |list| && |list| % 2 == 0 && 1 <= r < |list| && Distinct(Arrangement(list, r - 1))
    requires px < |list| && Arrangement(list, r - 1)[px] == Some(x)
    ensures Involving(Block(list, r), x) == if Arrangement(list, r - 1)[|list| - 1 - px].Some? then 1 else 0
  {
    assert Block(list, r) == RoundPairings(Arrangement(list, r - 1), r, r % 2 == 1, |list| / 2);
    RoundPlays(Arrangement(list, r - 1), |list|, r, r % 2 == 1, x, px);
  }

  /** A pairing of a round between `lo` and `hi` of two different teams from `ids`. */
  predicate Proper(p: Pairing, ids: seq<Id>, lo: int, hi: int) {
    lo <= p.round <= hi && p.homeId != p.awayId && p.homeId in ids && p.awayId in ids
  }

  /** The first team, which the circle method never moves, is at home in odd
      rounds and away in even ones. */
  predicate FirstTeamAlternates(p: Pairing, ids: seq<Id>)
    requires |ids| > 0
  {
    (p.homeId == ids[0] || p.awayId == ids[0]) ==> (p.homeId == ids[0] <==> p.round % 2 == 1)
  }

  // ---------------------------------------------------------------------------
  // One round of a working list

  /** Entries `a` and `b` play each other in round `r` exactly when `r` follows
      their meeting round, and then once. */
  lemma CircleBlockMeetings(list: seq<Option<Id>>, teams: seq<Id>, bye: nat, r: nat, a: nat, b: nat)
    requires Circle(list, teams, bye) && 1 <= r < |list|
    requires a < |list| && b < |list| && a != b && list[a].Some? && list[b].Some?
    ensures Meetings(Block(list, r), list[a].value, list[b].value)
         == if r - 1 == MeetRound(|list|, a, b) then 1 else 0
  {
    var n, q := |list|, r - 1;
    ArrangementPos(list, q, a);
    ArrangementPos(list, q, b);
    DistinctAt(list, a, b);
    ArrangementDistinct(list, q);
    BlockMeets(list, r, list[a].value, list[b].value, Pos(n, q, a), Pos(n, q, b));
    PairedIff(n, q, a, b);
  }

  /** Entry `a` plays once in round `r`, unless there is a bye and `r` follows
      its meeting round with the bye: then it sits out. */
  lemma CircleBlockInvolving(list: seq<Option<Id>>, teams: seq<Id>, bye: nat, r: nat, a: nat)
    requires Circle(list, teams, bye) && 1 <= r < |list| && a < |list| && list[a].Some?
    ensures Involving(Block(list, r), list[a].value)
         == if bye < |list| && r - 1 == MeetRound(|list|, a, bye) then 0 else 1
  {
    var n, q := |list|, r - 1;
    var opposite := n - 1 - Pos(n, q, a);
    ArrangementPos(list, q, a);
    ArrangementDistinct(list, q);
    BlockPlays(list, r, list[a].value, Pos(n, q, a));
    if bye < n {
      PairedIff(n, q, a, bye);
      if SlotAt(n, q, opposite) == bye {
        SlotAtInjective(n, q, opposite, Pos(n, q, bye));
      }
    }
  }

  /** Rotating the working list moves the bye, if any, to its new position. */
  lemma ArrangementBye(list: seq<Option<Id>>, q: nat, bye: nat)
    requires 2 <= |list| && q < |list| && ByeAt(list, bye)
    ensures ByeAt(Arrangement(list, q), if bye < |list| then Pos(|list|, q, bye) else |list|)
  {
    var n, arr := |list|, Arrangement(list, q);
    var z := if bye < n then Pos(n, q, bye) else n;
    forall i | 0 <= i < n
      ensures arr[i].None? <==> i == z
    {
      if bye < n && SlotAt(n, q, i) == bye {
        SlotAtInjective(n, q, i, z);
      }
    }
  }

  /** A full round of `n` positions with the bye at `z`, if anywhere, has `n/2`
      matches, one fewer when there is a bye. */
  lemma RoundCount(arr: seq<Option<Id>>, n: nat, r: int, hf: bool, z: nat)
    requires |arr| == n && n % 2 == 0 && z <= n && ByeAt(arr, z)
    ensures |RoundPairings(arr, r, hf, n / 2)| == if z < n then n / 2 - 1 else n / 2
  {
    LengthCount(arr, r, hf, n / 2);
    RoundLength(arr, n / 2, z);
  }

  /** A round has `n/2` matches, one fewer when there is a bye. */
  lemma CircleBlockLength(list: seq<Option<Id>>, bye: nat, r: nat)
    requires 2 <= |list| && |list| % 2 == 0 && ByeAt(list, bye) && 1 <= r < |list|
    ensures |Block(list, r)| == if bye < |list| then |list| / 2 - 1 else |list| / 2
  {
    var n, q := |list|, r - 1;
    ArrangementBye(list, q, bye);
    assert Block(list, r) == RoundPairings(Arrangement(list, q), r, r % 2 == 1, n / 2);
    RoundCount(Arrangement(list, q), n, r, r % 2 == 1, if bye < n then Pos(n, q, bye) else n);
  }

  /** Every pairing of round `r` is a match of round `r` between two different
      teams, with the first team at home exactly when `r` is odd. */
  lemma CircleBlockShape(list: seq<Option<Id>>, teams: seq<Id>, bye: nat, r: nat)
    requires Circle(list, teams, bye) && 1 <= r < |list|
    ensures forall k :: 0 <= k < |Block(list, r)| ==>
      Proper(Block(list, r)[k], teams, r, r) && FirstTeamAlternates(Block(list, r)[k], teams)
  {
    var n, q := |list|, r - 1;
    var arr := Arrangement(list, q);
    var ps := Block(list, r);
    assert arr[0] == list[0];
    ArrangementDistinct(list, q);
    RoundShape(arr, r, r % 2 == 1, n / 2);
    forall k | 0 <= k < |ps|
      ensures Proper(ps[k], teams, r, r) && FirstTeamAlternates(ps[k], teams)
    {
      assert ShapedAt(ps[k], r, arr, r % 2 == 1);
      ArrangementMember(list, q, Some(ps[k].homeId));
      ArrangementMember(list, q, Some(ps[k].awayId));
      CircleMember(list, teams, bye, ps[k].homeId);
      CircleMember(list, teams, bye, ps[k].awayId);
    }
  }

  // ---------------------------------------------------------------------------
  // The first leg

  /** Flattening adds the last round's pairings to those of the rounds before it. */
  lemma FlattenStep(rs: seq<seq<Pairing>>, x: Id, y: Id)
    requires rs != []
    ensures Meetings(Flatten(rs), x, y) == Meetings(Flatten(rs[..|rs| - 1]), x, y) + Meetings(rs[|rs| - 1], x, y)
    ensures Involving(Flatten(rs), x) == Involving(Flatten(rs[..|rs| - 1]), x) + Involving(rs[|rs| - 1], x)
    ensures |Flatten(rs)| == |Flatten(rs[..|rs| - 1])| + |rs[|rs| - 1]|
  {
    var prev, last := Flatten(rs[..|rs| - 1]), rs[|rs| - 1];
    HostedAppend(prev, last, x, y);
    HostedAppend(prev, last, y, x);
    InvolvingAppend(prev, last, x);
  }

  /** A pair that meets only in round `k` (counted from 0) has met once over the
      rounds exactly when there is such a round. */
  lemma {:induction false} MeetsOnlyIn(rs: seq<seq<Pairing>>, x: Id, y: Id, k: nat)
    requires forall r :: 0 <= r < |rs| ==> Meetings(rs[r], x, y) == if r == k then 1 else 0
    ensures Meetings(Flatten(rs), x, y) == if k < |rs| then 1 else 0
  {
    if rs != [] {
      MeetsOnlyIn(rs[..|rs| - 1], x, y, k);
      FlattenStep(rs, x, y);
    }
  }

  /** A team that plays once in every round, except round `k` when `skip` is set. */
  lemma {:induction false} PlaysAllBut(rs: seq<seq<Pairing>>, x: Id, skip: bool, k: nat)
    requires forall r :: 0 <= r < |rs| ==> Involving(rs[r], x) == if skip && r == k then 0 else 1
    ensures Involving(Flatten(rs), x) == |rs| - (if skip && k < |rs| then 1 else 0)
  {
    if rs != [] {
      PlaysAllBut(rs[..|rs| - 1], x, skip, k);
      FlattenStep(rs, x, x);
    }
  }

  lemma MulStep(q: nat, s: nat)
    requires q > 0
    ensures (q - 1) * s + s == q * s
  {
  }

  /** Rounds of `size` pairings each flatten to `|rs| * size` pairings. */
  lemma {:induction false} FlattenLength(rs: seq<seq<Pairing>>, size: nat)
    requires forall r :: 0 <= r < |rs| ==> |rs[r]| == size
    ensures |Flatten(rs)| == |rs| * size
  {
    if rs != [] {
      FlattenLength(rs[..|rs| - 1], size);
      assert Flatten(rs) == Flatten(rs[..|rs| - 1]) + rs[|rs| - 1];
      MulStep(|rs|, size);
    }
  }

  /** What holds of every pairing of every round holds of every flattened pairing. */
  lemma {:induction false} FlattenShape(rs: seq<seq<Pairing>>, ids: seq<Id>, lo: int, hi: int)
    requires |ids| > 0
    requires forall r, j :: 0 <= r < |rs| && 0 <= j < |rs[r]| ==>
      Proper(rs[r][j], ids, lo, hi) && FirstTeamAlternates(rs[r][j], ids)
    ensures forall k :: 0 <= k < |Flatten(rs)| ==>
      Proper(Flatten(rs)[k], ids, lo, hi) && FirstTeamAlternates(Flatten(rs)[k], ids)
  {
    if rs != [] {
      var init, last := rs[..|rs| - 1], rs[|rs| - 1];
      FlattenShape(init, ids, lo, hi);
      var prev, all := Flatten(init), Flatten(rs);
      assert all == prev + last;
      forall k | 0 <= k < |all|
        ensures Proper(all[k], ids, lo, hi) && FirstTeamAlternates(all[k], ids)
      {
        if k < |prev| {
          assert all[k] == prev[k];
        } else {
          assert all[k] == last[k - |prev|];
        }
      }
    }
  }

  // ---------------------------------------------------------------------------
  // The second leg

  lemma {:induction false} SecondLegCounts(leg: seq<Pairing>, rounds: nat, swap: bool, x: Id, y: Id)
    ensures Hosted(SecondLeg(leg, rounds, swap), x, y) == if swap then Hosted(leg, y, x) else Hosted(leg, x, y)
    ensures Involving(SecondLeg(leg, rounds, swap), x) == Involving(leg, x)
  {
    if leg != [] {
      var init := leg[..|leg| - 1];
      SecondLegCounts(init, rounds, swap, x, y);
      assert SecondLeg(leg, rounds, swap)[..|leg| - 1] == SecondLeg(init, rounds, swap);
    }
  }

  // ---------------------------------------------------------------------------
  // The whole schedule

  /** The first leg is rounds `1..n-1` of the circle method. */
  lemma FirstLegIs(ids: seq<Id>)
    requires 2 <= |ids|
    ensures FirstLeg(ids) == Flatten(Rounds(Slots(ids), |Slots(ids)| - 1))
    ensures LegRounds(ids) == |Slots(ids)| - 1
  {
  }

  /** The fixtures are the first leg, then the second leg when there is one. */
  lemma Legs(ids: seq<Id>, opts: Options)
    requires 2 <= |ids|
    ensures Fixtures(ids, opts)
         == FirstLeg(ids) + (if opts.doubleRound then SecondLeg(FirstLeg(ids), LegRounds(ids), opts.homeAway) else [])
  {
    FirstLegIs(ids);
    FixturesSplit(ids, opts, Slots(ids), FirstLeg(ids));
  }

  /** Counting over both legs: the second leg repeats every meeting, with host
      and guest swapped when `swap` is set. */
  lemma BothLegsCount(leg: seq<Pairing>, rounds: nat, double: bool, swap: bool, x: Id, y: Id)
    ensures var fx := leg + (if double then SecondLeg(leg, rounds, swap) else []);
      && Hosted(fx, x, y) == Hosted(leg, x, y) + (if double then (if swap then Hosted(leg, y, x) else Hosted(leg, x, y)) else 0)
      && Involving(fx, x) == Involving(leg, x) * (if double then 2 else 1)
  {
    var second := if double then SecondLeg(leg, rounds, swap) else [];
    HostedAppend(leg, second, x, y);
    InvolvingAppend(leg, second, x);
    SecondLegCounts(leg, rounds, swap, x, y);
  }

  /** Entries `a` and `b` meet in the round after their meeting round and in no other. */
  lemma CircleRoundsMeetings(list: seq<Option<Id>>, teams: seq<Id>, bye: nat, a: nat, b: nat)
    requires Circle(list, teams, bye)
    requires a < |list| && b < |list| && a != b && list[a].Some? && list[b].Some?
    ensures forall r :: 1 <= r < |list| ==>
      Meetings(Block(list, r), list[a].value, list[b].value) == if r - 1 == MeetRound(|list|, a, b) then 1 else 0
  {
    forall r | 1 <= r < |list|
      ensures Meetings(Block(list, r), list[a].value, list[b].value) == if r - 1 == MeetRound(|list|, a, b) then 1 else 0
    {
      CircleBlockMeetings(list, teams, bye, r, a, b);
    }
  }

  /** Two teams that meet in round `k + 1` only meet once over the leg. */
  lemma LegMeets(list: seq<Option<Id>>, x: Id, y: Id, k: nat)
    requires 2 <= |list|
    requires forall r :: 1 <= r < |list| ==> Meetings(Block(list, r), x, y) == if r - 1 == k then 1 else 0
    ensures Meetings(Flatten(Rounds(list, |list| - 1)), x, y) == if k < |list| - 1 then 1 else 0
  {
    var rs := Rounds(list, |list| - 1);
    forall r | 0 <= r < |rs|
      ensures Meetings(rs[r], x, y) == if r == k then 1 else 0
    {
      assert rs[r] == Block(list, r + 1);
    }
    MeetsOnlyIn(rs, x, y, k);
  }

  /** Over a whole leg, entries `a` and `b` meet exactly once. */
  lemma CircleLegMeets(list: seq<Option<Id>>, teams: seq<Id>, bye: nat, a: nat, b: nat)
    requires Circle(list, teams, bye)
    requires a < |list| && b < |list| && a != b && list[a].Some? && list[b].Some?
    ensures Meetings(Flatten(Rounds(list, |list| - 1)), list[a].value, list[b].value) == 1
  {
    CircleRoundsMeetings(list, teams, bye, a, b);
    LegMeets(list, list[a].value, list[b].value, MeetRound(|list|, a, b));
  }

  /** Entry `a` plays in every round but the one after its meeting round with the bye. */
  lemma CircleRoundsInvolving(list: seq<Option<Id>>, teams: seq<Id>, bye: nat, a: nat)
    requires Circle(list, teams, bye) && a < |list| && list[a].Some?
    ensures var k := if bye < |list| then MeetRound(|list|, a, bye) else 0;
      forall r :: 1 <= r < |list| ==>
        Involving(Block(list, r), list[a].value) == if bye < |list| && r - 1 == k then 0 else 1
  {
    var k := if bye < |list| then MeetRound(|list|, a, bye) else 0;
    forall r | 1 <= r < |list|
      ensures Involving(Block(list, r), list[a].value) == if bye < |list| && r - 1 == k then 0 else 1
    {
      CircleBlockInvolving(list, teams, bye, r, a);
    }
  }

  /** A team that plays in every round but round `k + 1` when `skip` is set. */
  lemma LegInvolves(list: seq<Option<Id>>, x: Id, skip: bool, k: nat)
    requires 2 <= |list|
    requires forall r :: 1 <= r < |list| ==> Involving(Block(list, r), x) == if skip && r - 1 == k then 0 else 1
    ensures Involving(Flatten(Rounds(list, |list| - 1)), x)
         == |list| - 1 - (if skip && k < |list| - 1 then 1 else 0)
  {
    var rs := Rounds(list, |list| - 1);
    forall r | 0 <= r < |rs|
      ensures Involving(rs[r], x) == if skip && r == k then 0 else 1
    {
      assert rs[r] == Block(list, r + 1);
    }
    PlaysAllBut(rs, x, skip, k);
  }

  /** Over a whole leg, entry `a` plays in every round but the one it spends
      against the bye. */
  lemma CircleLegPlays(list: seq<Option<Id>>, teams: seq<Id>, bye: nat, a: nat)
    requires Circle(list, teams, bye) && a < |list| && list[a].Some?
    ensures Involving(Flatten(Rounds(list, |list| - 1)), list[a].value)
         == if bye < |list| then |list| - 2 else |list| - 1
  {
    CircleRoundsInvolving(list, teams, bye, a);
    var k := if bye < |list| then MeetRound(|list|, a, bye) else 0;
    LegInvolves(list, list[a].value, bye < |list|, k);
  }

  /** A leg has `n-1` rounds of `sz` matches each, `sz` being the round size. */
  lemma CircleLegSize(list: seq<Option<Id>>, bye: nat, sz: nat)
    requires 2 <= |list| && |list| % 2 == 0 && ByeAt(list, bye)
    requires sz == if bye < |list| then |list| / 2 - 1 else |list| / 2
    ensures |Flatten(Rounds(list, |list| - 1))| == (|list| - 1) * sz
  {
    var rs := Rounds(list, |list| - 1);
    forall r | 0 <= r < |rs|
      ensures |rs[r]| == sz
    {
      CircleBlockLength(list, bye, r + 1);
    }
    FlattenLength(rs, sz);
  }

  /** Every pairing of a leg is a match of rounds `1..n-1` between two different
      teams, with the first team at home exactly in the odd rounds. */
  lemma CircleLegShape(list: seq<Option<Id>>, teams: seq<Id>, bye: nat)
    requires Circle(list, teams, bye)
    ensures var leg := Flatten(Rounds(list, |list| - 1));
      forall k :: 0 <= k < |leg| ==>
        Proper(leg[k], teams, 1, |list| - 1) && FirstTeamAlternates(leg[k], teams)
  {
    var m := |list| - 1;
    var rs := Rounds(list, m);
    forall r, j | 0 <= r < m && 0 <= j < |rs[r]|
      ensures Proper(rs[r][j], teams, 1, m) && FirstTeamAlternates(rs[r][j], teams)
    {
      CircleBlockShape(list, teams, bye, r + 1);
      assert Proper(Block(list, r + 1)[j], teams, r + 1, r + 1);
    }
    FlattenShape(rs, teams, 1, m);
  }

  /** In the first leg every two teams meet exactly once. */
  lemma LegMeetsOnce(ids: seq<Id>, u: nat, v: nat)
    requires Distinct(ids) && u < |ids| && v < |ids| && u != v
    ensures Meetings(FirstLeg(ids), ids[u], ids[v]) == 1
  {
    SlotsCircle(ids);
    CircleLegMeets(Slots(ids), ids, |ids|, u, v);
    FirstLegIs(ids);
  }

  /** In the first leg every team plays `|ids| - 1` matches: one against each other team. */
  lemma LegPlays(ids: seq<Id>, u: nat)
    requires Distinct(ids) && 2 <= |ids| && u < |ids|
    ensures Involving(FirstLeg(ids), ids[u]) == |ids| - 1
  {
    SlotsCircle(ids);
    CircleLegPlays(Slots(ids), ids, |ids|, u);
    FirstLegIs(ids);
  }

  /** Every first-leg pairing is a match of two different teams in rounds `1..m`,
      and the first team is at home exactly in the odd rounds. */
  lemma LegShape(ids: seq<Id>)
    requires Distinct(ids) && 2 <= |ids|
    ensures forall k :: 0 <= k < |FirstLeg(ids)| ==>
      Proper(FirstLeg(ids)[k], ids, 1, LegRounds(ids)) && FirstTeamAlternates(FirstLeg(ids)[k], ids)
  {
    SlotsCircle(ids);
    CircleLegShape(Slots(ids), ids, |ids|);
    FirstLegIs(ids);
  }

  /** The number of first-leg fixtures, twice over: `k(k-1)` for `k` teams. */
  lemma LegSize(ids: seq<Id>)
    requires 2 <= |ids|
    ensures 2 * |FirstLeg(ids)| == |ids| * (|ids| - 1)
  {
    SlotsByeAt(ids);
    CircleLegSize(Slots(ids), |ids|, |ids| / 2);
    FirstLegIs(ids);
    SizeArith(|ids|, |Slots(ids)| - 1, |ids| / 2);
  }

  /** Every two teams meet once per leg. */
  lemma EachPairMeets(ids: seq<Id>, opts: Options, u: nat, v: nat)
    requires Distinct(ids) && u < |ids| && v < |ids| && u != v
    ensures Meetings(Fixtures(ids, opts), ids[u], ids[v]) == if opts.doubleRound then 2 else 1
  {
    Legs(ids, opts);
    var leg := FirstLeg(ids);
    LegMeetsOnce(ids, u, v);
    BothLegsCount(leg, LegRounds(ids), opts.doubleRound, opts.homeAway, ids[u], ids[v]);
    BothLegsCount(leg, LegRounds(ids), opts.doubleRound, opts.homeAway, ids[v], ids[u]);
  }

  /** In a double round robin every team hosts every other team exactly once when
      home and away are swapped; otherwise the same team hosts both meetings. */
  lemma DoubleRoundHosts(ids: seq<Id>, opts: Options, u: nat, v: nat)
    requires Distinct(ids) && u < |ids| && v < |ids| && u != v && opts.doubleRound
    ensures opts.homeAway ==> Hosted(Fixtures(ids, opts), ids[u], ids[v]) == 1
    ensures !opts.homeAway ==> Hosted(Fixtures(ids, opts), ids[u], ids[v]) == 2 * Hosted(FirstLeg(ids), ids[u], ids[v])
  {
    Legs(ids, opts);
    var leg := FirstLeg(ids);
    LegMeetsOnce(ids, u, v);
    BothLegsCount(leg, LegRounds(ids), true, opts.homeAway, ids[u], ids[v]);
  }

  /** Every team plays `|ids| - 1` matches per leg. */
  lemma MatchesPerTeam(ids: seq<Id>, opts: Options, u: nat)
    requires Distinct(ids) && 2 <= |ids| && u < |ids|
    ensures Involving(Fixtures(ids, opts), ids[u]) == (|ids| - 1) * (if opts.doubleRound then 2 else 1)
  {
    Legs(ids, opts);
    var leg := FirstLeg(ids);
    LegPlays(ids, u);
    BothLegsCount(leg, LegRounds(ids), opts.doubleRound, opts.homeAway, ids[u], ids[u]);
  }

  lemma SizeArith(k: nat, m: nat, sz: nat)
    requires (k % 2 == 1 && m == k && 2 * sz == k - 1) || (k % 2 == 0 && m == k - 1 && 2 * sz == k)
    ensures 2 * (m * sz) == k * (k - 1)
  {
    assert 2 * (m * sz) == m * (2 * sz);
  }

  /** A leg has `k(k-1)/2` matches for `k` teams. */
  lemma FixtureCount(ids: seq<Id>, opts: Options)
    ensures 2 * |Fixtures(ids, opts)| == |ids| * (|ids| - 1) * (if opts.doubleRound then 2 else 1)
  {
    if |ids| >= 2 {
      Legs(ids, opts);
      LegSize(ids);
    }
  }

  /** Every fixture is a match of two different teams of the division; the first
      leg fills rounds `1..m` and the second rounds `m+1..2m`. When the second
      leg swaps home and away (or there is none), the first team is at home
      exactly in the odd rounds. */
  lemma FixturesProper(ids: seq<Id>, opts: Options)
    requires Distinct(ids) && 2 <= |ids|
    ensures var fx, m := Fixtures(ids, opts), LegRounds(ids);
      && (forall k :: 0 <= k < |FirstLeg(ids)| ==> Proper(fx[k], ids, 1, m))
      && (forall k :: |FirstLeg(ids)| <= k < |fx| ==> Proper(fx[k], ids, m + 1, 2 * m))
      && (!opts.doubleRound || opts.homeAway ==> forall k :: 0 <= k < |fx| ==> FirstTeamAlternates(fx[k], ids))
  {
    Legs(ids, opts);
    FirstLegIs(ids);
    var m := LegRounds(ids);
    var leg := FirstLeg(ids);
    var second := if opts.doubleRound then SecondLeg(leg, m, opts.homeAway) else [];
    LegShape(ids);
    SecondLegShape(ids, leg, m, opts.doubleRound, opts.homeAway);
    AppendShape(ids, leg, second, m, !opts.doubleRound || opts.homeAway);
  }

  lemma SecondLegShape(ids: seq<Id>, leg: seq<Pairing>, m: nat, double: bool, swap: bool)
    requires |ids| > 0 && m % 2 == 1
    requires forall k :: 0 <= k < |leg| ==> Proper(leg[k], ids, 1, m) && FirstTeamAlternates(leg[k], ids)
    ensures var second := if double then SecondLeg(leg, m, swap) else [];
      forall k :: 0 <= k < |second| ==>
        Proper(second[k], ids, m + 1, 2 * m) && (swap ==> FirstTeamAlternates(second[k], ids))
  {
    if double {
      var second := SecondLeg(leg, m, swap);
      forall k | 0 <= k < |second|
        ensures Proper(second[k], ids, m + 1, 2 * m) && (swap ==> FirstTeamAlternates(second[k], ids))
      {
        var p := leg[k];
        assert Proper(p, ids, 1, m) && FirstTeamAlternates(p, ids);
        assert (p.round + m) % 2 == 1 <==> p.round % 2 == 0;
      }
    }
  }

  lemma AppendShape(ids: seq<Id>, leg: seq<Pairing>, second: seq<Pairing>, m: nat, alternates: bool)
    requires |ids| > 0
    requires forall k :: 0 <= k < |leg| ==> Proper(leg[k], ids, 1, m) && FirstTeamAlternates(leg[k], ids)
    requires forall k :: 0 <= k < |second| ==>
      Proper(second[k], ids, m + 1, 2 * m) && (alternates ==> FirstTeamAlternates(second[k], ids))
    ensures var fx := leg + second;
      && (forall k :: 0 <= k < |leg| ==> Proper(fx[k], ids, 1, m))
      && (forall k :: |leg| <= k < |fx| ==> Proper(fx[k], ids, m + 1, 2 * m))
      && (alternates ==> forall k :: 0 <= k < |fx| ==> FirstTeamAlternates(fx[k], ids))
  {
    var fx := leg + second;
    forall k | |leg| <= k < |fx|
      ensures fx[k] == second[k - |leg|]
    {
    }
  }

  // ---------------------------------------------------------------------------
  // Rounds and matches as the division sees them

  /** Round `r` of the first leg over the division's teams: it holds `|ids| / 2`
      matches (one team sits out when the number is odd), each of round `r`,
      and no team plays twice in it. */
  lemma LegRound(ids: seq<Id>, r: nat, u: nat)
    requires Distinct(ids) && 2 <= |ids| && 1 <= r <= LegRounds(ids) && u < |ids|
    ensures |Block(Slots(ids), r)| == |ids| / 2
    ensures forall k :: 0 <= k < |Block(Slots(ids), r)| ==> Proper(Block(Slots(ids), r)[k], ids, r, r)
    ensures Involving(Block(Slots(ids), r), ids[u]) <= 1
  {
    var list := Slots(ids);
    SlotsCircle(ids);
    CircleBlockLength(list, |ids|, r);
    CircleBlockShape(list, ids, |ids|, r);
    CircleBlockInvolving(list, ids, |ids|, r, u);
  }

  /** With an odd field every team sits out exactly one round of the leg: the
      round in which it meets the bye. */
  lemma ByeOnce(ids: seq<Id>, u: nat)
    requires Distinct(ids) && 2 <= |ids| && |ids| % 2 == 1 && u < |ids|
    ensures exists b :: 1 <= b <= LegRounds(ids) && Involving(Block(Slots(ids), b), ids[u]) == 0
              && forall r :: 1 <= r <= LegRounds(ids) && r != b ==> Involving(Block(Slots(ids), r), ids[u]) == 1
  {
    var list := Slots(ids);
    SlotsCircle(ids);
    CircleRoundsInvolving(list, ids, |ids|, u);
    var b := MeetRound(|list|, u, |ids|) + 1;
    assert Involving(Block(list, b), ids[u]) == 0;
  }

  /** With an even field every team plays in every round of the leg. */
  lemma NoIdleRound(ids: seq<Id>, u: nat, r: nat)
    requires Distinct(ids) && 2 <= |ids| && |ids| % 2 == 0 && u < |ids| && 1 <= r <= LegRounds(ids)
    ensures Involving(Block(Slots(ids), r), ids[u]) == 1
  {
    SlotsCircle(ids);
    CircleBlockInvolving(Slots(ids), ids, |ids|, r, u);
  }

  /** The generator's output: nothing for fewer than two teams; otherwise one
      unplayed match per fixture, in fixture order, the k-th carrying the k-th
      fresh id. */
  lemma ScheduleUnplayed(ids: seq<Id>, opts: Options, mint: nat -> Id)
    ensures |ids| < 2 ==> Schedule.Schedule(ids, opts, mint) == []
    ensures |Schedule.Schedule(ids, opts, mint)| == |Fixtures(ids, opts)|
    ensures forall k :: 0 <= k < |Schedule.Schedule(ids, opts, mint)| ==>
              var m, p := Schedule.Schedule(ids, opts, mint)[k], Fixtures(ids, opts)[k];
              && m.id == mint(k) && m.round == p.round && m.homeId == p.homeId && m.awayId == p.awayId
              && m.homeGoals == None && m.awayGoals == None && m.playedAt == None
  {
  }
}
