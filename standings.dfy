/** The standings engine (`computeTable`, app.js:140-190): one row per team,
    results folded in the order they were saved, then the table sorted by
    points, goal difference, goals for and name, and ranked 1..n. */
module Standings {
  import opened LeagueModel
  import opened Sorting

  // ---------------------------------------------------------------------------
  // The per-team records, kept in a JavaScript `Map` keyed by team id

  /** A team's id and name with every counter at zero and no results yet. */
  function Zero(id: Id, name: string): Standing {
    Standing(id, name, 0, 0, 0, 0, 0, 0, 0, 0, [], 0)
  }

  /** The keys of the `Map` after setting every team id in list order: each id
      once, at the place where it first occurs (a later `set` of the same key
      keeps its place). */
  function Keys(teams: seq<Team>): (keys: seq<Id>)
    ensures Distinct(keys)
    ensures forall id :: id in keys <==> id in IdSet(teams)
  {
    if teams == [] then []
    else
      var prior := teams[..|teams| - 1];
      var t := teams[|teams| - 1];
      assert forall id :: id in IdSet(teams) <==> id in IdSet(prior) || id == t.id;
      if t.id in Keys(prior) then Keys(prior) else Keys(prior) + [t.id]
  }

  /** The name the `Map` holds for `id`: that of the last team with this id,
      since each `set` replaces the record. */
  function NameOf(teams: seq<Team>, id: Id): (name: string)
    requires id in IdSet(teams)
    ensures exists i :: 0 <= i < |teams| && teams[i].id == id && teams[i].name == name
                        && forall j :: i < j < |teams| ==> teams[j].id != id
  {
    var prior := teams[..|teams| - 1];
    var t := teams[|teams| - 1];
    if t.id == id then t.name
    else
      assert id in IdSet(prior) by {
        var i :| 0 <= i < |teams| && teams[i].id == id;
        assert prior[i].id == id;
      }
      var name := NameOf(prior, id);
      var i :| 0 <= i < |prior| && prior[i].id == id && prior[i].name == name
               && forall j :: i < j < |prior| ==> prior[j].id != id;
      assert teams[i] == prior[i];
      assert forall j :: i < j < |teams| ==> teams[j].id != id by {
        forall j | i < j < |teams| ensures teams[j].id != id {
          if j < |prior| { assert teams[j] == prior[j]; }
        }
      }
      name
  }

  /** The values of the `Map` before any match is counted. */
  function Initial(teams: seq<Team>): (stats: map<Id, Standing>)
    ensures stats.Keys == IdSet(teams)
    ensures forall id :: id in stats ==> stats[id] == Zero(id, NameOf(teams, id))
  {
    if teams == [] then map[]
    else
      var t := teams[|teams| - 1];
      var prior := teams[..|teams| - 1];
      assert forall id :: id in IdSet(teams) <==> id in IdSet(prior) || id == t.id;
      Initial(prior)[t.id := Zero(t.id, t.name)]
  }

  /** With distinct team ids the keys are the team ids in team order. */
  lemma {:induction false} KeysOfDistinct(teams: seq<Team>)
    requires DistinctTeamIds(teams)
    ensures Keys(teams) == TeamIds(teams)
  {
    if teams != [] {
      var prior := teams[..|teams| - 1];
      KeysOfDistinct(prior);
      assert TeamIds(teams) == TeamIds(prior) + [teams[|teams| - 1].id];
      assert teams[|teams| - 1].id !in IdSet(prior);
    }
  }

  // ---------------------------------------------------------------------------
  // Which matches count, and in which order

  /** Both scores are entered (the source tests `!= null`). */
  predicate Played(m: Match) {
    m.homeGoals.Some? && m.awayGoals.Some?
  }

  /** A match the fold credits: played, and both sides are keys of the `Map`. */
  predicate Counted(m: Match, keys: set<Id>) {
    Played(m) && m.homeId in keys && m.awayId in keys
  }

  /** The played matches, in list order. */
  function PlayedMatches(ms: seq<Match>): (played: seq<Match>)
    ensures forall k :: 0 <= k < |played| ==> Played(played[k])
    ensures forall m :: m in played <==> m in ms && Played(m)
  {
    if ms == [] then []
    else
      var prior := ms[..|ms| - 1];
      var m := ms[|ms| - 1];
      assert ms == prior + [m];
      PlayedMatches(prior) + (if Played(m) then [m] else [])
  }

  /** The filter commutes with concatenation: the played matches keep their
      list order, and those of an earlier part come first. */
  lemma {:induction false} PlayedAppend(a: seq<Match>, b: seq<Match>)
    ensures PlayedMatches(a + b) == PlayedMatches(a) + PlayedMatches(b)
    decreases |b|
  {
    if b == [] {
      assert a + b == a;
    } else {
      var prior := b[..|b| - 1];
      var m := b[|b| - 1];
      assert b == prior + [m];
      assert (a + b)[..|a + b| - 1] == a + prior;
      PlayedAppend(a, prior);
    }
  }

  /** The filter keeps every played match as often as it occurs and drops
      every unplayed one. */
  lemma {:induction false} PlayedCount(ms: seq<Match>, m: Match)
    ensures multiset(PlayedMatches(ms))[m] == if Played(m) then multiset(ms)[m] else 0
  {
    if ms != [] {
      var prior := ms[..|ms| - 1];
      assert ms == prior + [ms[|ms| - 1]];
      PlayedCount(prior, m);
    }
  }

  /** The time a result was saved, `playedAt || 0`. */
  function Stamp(m: Match): int {
    if m.playedAt.Some? then m.playedAt.value else 0
  }

  /** The comparator of the match sort is negative: earlier save time, then
      lower round. */
  predicate Earlier(a: Match, b: Match) {
    Stamp(a) < Stamp(b) || (Stamp(a) == Stamp(b) && a.round < b.round)
  }

  /** The played matches in the order the fold visits them. */
  function Ordered(ms: seq<Match>): seq<Match> {
    StableSort(PlayedMatches(ms), Earlier)
  }

  // ---------------------------------------------------------------------------
  // Crediting one result

  /** One side's appearance: played, goals for and goals against. */
  function Side(s: Standing, scored: int, conceded: int): Standing {
    s.(played := s.played + 1, gf := s.gf + scored, ga := s.ga + conceded)
  }

  /** One side's outcome: the W/D/L counter, the points and the form entry. */
  function Record(s: Standing, o: Outcome): Standing {
    match o
    case Win => s.(w := s.w + 1, pts := s.pts + 3, form := s.form + [Win])
    case Draw => s.(d := s.d + 1, pts := s.pts + 1, form := s.form + [Draw])
    case Loss => s.(l := s.l + 1, form := s.form + [Loss])
  }

  /** The fold's step, statement by statement as the source performs it: both
      appearances, then the winner's (or home side's, on a draw) outcome, then
      the other side's. When a team meets itself every step lands on the same
      record. */
  function ApplyMatch(stats: map<Id, Standing>, m: Match): map<Id, Standing> {
    if !Counted(m, stats.Keys) then stats
    else
      var h, a := m.homeId, m.awayId;
      var hg, ag := m.homeGoals.value, m.awayGoals.value;
      var s1 := stats[h := Side(stats[h], hg, ag)];
      var s2 := s1[a := Side(s1[a], ag, hg)];
      if hg > ag then
        var s3 := s2[h := Record(s2[h], Win)];
        s3[a := Record(s3[a], Loss)]
      else if hg < ag then
        var s3 := s2[a := Record(s2[a], Win)];
        s3[h := Record(s3[h], Loss)]
      else
        var s3 := s2[h := Record(s2[h], Draw)];
        s3[a := Record(s3[a], Draw)]
  }

  /** The fold over the matches in visiting order. */
  function Apply(stats: map<Id, Standing>, ms: seq<Match>): map<Id, Standing> {
    if ms == [] then stats else ApplyMatch(Apply(stats, ms[..|ms| - 1]), ms[|ms| - 1])
  }

  // ---------------------------------------------------------------------------
  // Rows, comparator and ranks

  /** The last five entries (`slice(-5)`). */
  function LastFive<T>(s: seq<T>): (r: seq<T>)
    ensures |r| <= 5
  {
    if |s| <= 5 then s else s[|s| - 5..]
  }

  /** Goal difference, and the form cut to the last five results, newest first. */
  function Finalize(s: Standing): Standing {
    s.(gd := s.gf - s.ga, form := Reverse(LastFive(s.form)))
  }

  /** The records in key order, finalized (`Array.from(stats.values())`). */
  function Rows(keys: seq<Id>, stats: map<Id, Standing>): (rows: seq<Standing>)
    requires forall k :: k in keys ==> k in stats
    ensures |rows| == |keys|
    ensures forall i :: 0 <= i < |keys| ==> rows[i] == Finalize(stats[keys[i]])
  {
    seq(|keys|, i requires 0 <= i < |keys| => Finalize(stats[keys[i]]))
  }

  /** The table comparator is negative: more points, then better goal difference,
      then more goals for, then `collate` (the source's `localeCompare`) puts
      the name first. */
  predicate RowBefore(collate: (string, string) -> int, a: Standing, b: Standing) {
    if a.pts != b.pts then a.pts > b.pts
    else if a.gd != b.gd then a.gd > b.gd
    else if a.gf != b.gf then a.gf > b.gf
    else collate(a.name, b.name) < 0
  }

  function ByRank(collate: (string, string) -> int): (Standing, Standing) -> bool {
    (a, b) => RowBefore(collate, a, b)
  }

  /** Ranks 1..n by position. */
  function Ranked(rows: seq<Standing>): (table: seq<Standing>)
    ensures |table| == |rows|
    ensures forall i :: 0 <= i < |rows| ==> table[i] == rows[i].(rank := i + 1)
  {
    seq(|rows|, i requires 0 <= i < |rows| => rows[i].(rank := i + 1))
  }

  /** The finalized records, in key order, after folding `ms`. */
  function Folded(teams: seq<Team>, ms: seq<Match>): seq<Standing> {
    ApplyKeys(Initial(teams), ms);
    Rows(Keys(teams), Apply(Initial(teams), ms))
  }

  /** The records after the fold over the played matches, in key order. */
  function Unsorted(teams: seq<Team>, matches: seq<Match>): seq<Standing> {
    Folded(teams, Ordered(matches))
  }

  function SortedRows(teams: seq<Team>, matches: seq<Match>, collate: (string, string) -> int): seq<Standing> {
    StableSort(Unsorted(teams, matches), ByRank(collate))
  }

  /** The table `computeTable` returns. */
  function Table(teams: seq<Team>, matches: seq<Match>, collate: (string, string) -> int): seq<Standing> {
    Ranked(SortedRows(teams, matches, collate))
  }

  // ---------------------------------------------------------------------------
  // The source's loops

  /** `computeTable`: fill the `Map`, filter and sort the results, fold them,
      finalize, sort the rows and number them. The engine's `Array.prototype.sort`
      is the `StableSort` function. */
  method ComputeTable(teams: seq<Team>, matches: seq<Match>, collate: (string, string) -> int)
    returns (table: seq<Standing>)
    ensures table == Table(teams, matches, collate)
  {
    var keys, stats := NewStats(teams);
    var played := FilterPlayed(matches);
    var ordered := StableSort(played, Earlier);
    SortMembers(played, Earlier);
    stats := FoldResults(stats, ordered);
    ApplyKeys(Initial(teams), ordered);
    var rows := FinalizeAll(keys, stats);
    var sorted := StableSort(rows, ByRank(collate));
    table := NumberRows(sorted);
  }

  /** One record per team, keys in first-occurrence order. */
  method NewStats(teams: seq<Team>) returns (keys: seq<Id>, stats: map<Id, Standing>)
    ensures keys == Keys(teams) && stats == Initial(teams)
  {
    keys, stats := [], map[];
    var i := 0;
    while i < |teams|
      invariant i <= |teams|
      invariant keys == Keys(teams[..i]) && stats == Initial(teams[..i])
    {
      var t := teams[i];
      assert teams[..i + 1][..i] == teams[..i];
      if t.id !in stats {
        keys := keys + [t.id];
      }
      stats := stats[t.id := Zero(t.id, t.name)];
      i := i + 1;
    }
    assert teams[..i] == teams;
  }

  /** The `filter` keeping matches with both scores. */
  method FilterPlayed(matches: seq<Match>) returns (played: seq<Match>)
    ensures played == PlayedMatches(matches)
  {
    played := [];
    var i := 0;
    while i < |matches|
      invariant i <= |matches|
      invariant played == PlayedMatches(matches[..i])
    {
      var m := matches[i];
      assert matches[..i + 1][..i] == matches[..i];
      if m.homeGoals.Some? && m.awayGoals.Some? {
        played := played + [m];
      }
      i := i + 1;
    }
    assert matches[..i] == matches;
  }

  /** The loop over the sorted results. */
  method FoldResults(start: map<Id, Standing>, ordered: seq<Match>) returns (stats: map<Id, Standing>)
    requires forall k :: 0 <= k < |ordered| ==> Played(ordered[k])
    ensures stats == Apply(start, ordered)
  {
    stats := start;
    var i := 0;
    while i < |ordered|
      invariant i <= |ordered|
      invariant stats == Apply(start, ordered[..i])
    {
      assert ordered[..i + 1][..i] == ordered[..i];
      stats := CountMatch(stats, ordered[i]);
      i := i + 1;
    }
    assert ordered[..i] == ordered;
  }

  /** The body of the result loop: skip a match with an unknown side, else
      update both records. */
  method CountMatch(stats0: map<Id, Standing>, m: Match) returns (stats: map<Id, Standing>)
    requires Played(m)
    ensures stats == ApplyMatch(stats0, m)
  {
    stats := stats0;
    if m.homeId !in stats || m.awayId !in stats {
      return;
    }
    var hg, ag := m.homeGoals.value, m.awayGoals.value;
    stats := stats[m.homeId := Side(stats[m.homeId], hg, ag)];
    stats := stats[m.awayId := Side(stats[m.awayId], ag, hg)];
    if hg > ag {
      stats := stats[m.homeId := Record(stats[m.homeId], Win)];
      stats := stats[m.awayId := Record(stats[m.awayId], Loss)];
    } else if hg < ag {
      stats := stats[m.awayId := Record(stats[m.awayId], Win)];
      stats := stats[m.homeId := Record(stats[m.homeId], Loss)];
    } else {
      stats := stats[m.homeId := Record(stats[m.homeId], Draw)];
      stats := stats[m.awayId := Record(stats[m.awayId], Draw)];
    }
  }

  /** Goal difference and form for every record, in key order. */
  method FinalizeAll(keys: seq<Id>, stats: map<Id, Standing>) returns (rows: seq<Standing>)
    requires forall k :: k in keys ==> k in stats
    ensures rows == Rows(keys, stats)
  {
    rows := [];
    var i := 0;
    while i < |keys|
      invariant i <= |keys|
      invariant |rows| == i
      invariant forall k :: 0 <= k < i ==> rows[k] == Finalize(stats[keys[k]])
    {
      rows := rows + [Finalize(stats[keys[i]])];
      i := i + 1;
    }
  }

  /** `arr.forEach((s, i) => s.rank = i + 1)`. */
  method NumberRows(sorted: seq<Standing>) returns (table: seq<Standing>)
    ensures table == Ranked(sorted)
  {
    table := sorted;
    var i := 0;
    while i < |table|
      invariant i <= |table| == |sorted|
      invariant forall k :: 0 <= k < i ==> table[k] == sorted[k].(rank := k + 1)
      invariant forall k :: i <= k < |table| ==> table[k] == sorted[k]
    {
      table := table[i := table[i].(rank := i + 1)];
      i := i + 1;
    }
  }

  // ---------------------------------------------------------------------------
  // The fold keeps its keys and skips what it does not count

  lemma {:induction false} ApplyKeys(stats: map<Id, Standing>, ms: seq<Match>)
    ensures Apply(stats, ms).Keys == stats.Keys
  {
    if ms != [] {
      ApplyKeys(stats, ms[..|ms| - 1]);
    }
  }

  lemma {:induction false} ApplyAppend(stats: map<Id, Standing>, a: seq<Match>, b: seq<Match>)
    ensures Apply(stats, a + b) == Apply(Apply(stats, a), b)
  {
    if b == [] {
      assert a + b == a;
    } else {
      assert (a + b)[..|a + b| - 1] == a + b[..|b| - 1];
      ApplyAppend(stats, a, b[..|b| - 1]);
    }
  }

  // ---------------------------------------------------------------------------
  // A team's record in closed form

  /** The outcomes one counted match adds to team `id`'s form, in push order:
      none if it took no part, two if it met itself. */
  function Outcomes(m: Match, id: Id): seq<Outcome>
    requires Played(m)
  {
    var hg, ag := m.homeGoals.value, m.awayGoals.value;
    var home, away := m.homeId == id, m.awayId == id;
    if hg > ag then (if home then [Win] else []) + (if away then [Loss] else [])
    else if hg < ag then (if away then [Win] else []) + (if home then [Loss] else [])
    else (if home then [Draw] else []) + (if away then [Draw] else [])
  }

  /** Goals team `id` scored in match `m`. */
  function GoalsFor(m: Match, id: Id): int
    requires Played(m)
  {
    (if m.homeId == id then m.homeGoals.value else 0) + (if m.awayId == id then m.awayGoals.value else 0)
  }

  /** Goals team `id` conceded in match `m`. */
  function GoalsAgainst(m: Match, id: Id): int
    requires Played(m)
  {
    (if m.homeId == id then m.awayGoals.value else 0) + (if m.awayId == id then m.homeGoals.value else 0)
  }

  function Count(s: seq<Outcome>, o: Outcome): nat {
    if s == [] then 0 else Count(s[..|s| - 1], o) + (if s[|s| - 1] == o then 1 else 0)
  }

  /** What one counted match adds to team `id`'s record. */
  function Credit(s: Standing, m: Match, id: Id): Standing
    requires Played(m)
  {
    var o := Outcomes(m, id);
    s.(played := s.played + |o|,
       w := s.w + Count(o, Win), d := s.d + Count(o, Draw), l := s.l + Count(o, Loss),
       gf := s.gf + GoalsFor(m, id), ga := s.ga + GoalsAgainst(m, id),
       pts := s.pts + 3 * Count(o, Win) + Count(o, Draw),
       form := s.form + o)
  }

  /** Team `id`'s outcomes over the counted matches of `ms`, oldest first. */
  function History(id: Id, ms: seq<Match>, keys: set<Id>): seq<Outcome> {
    if ms == [] then []
    else
      var m := ms[|ms| - 1];
      History(id, ms[..|ms| - 1], keys) + (if Counted(m, keys) then Outcomes(m, id) else [])
  }

  function Scored(id: Id, ms: seq<Match>, keys: set<Id>): int {
    if ms == [] then 0
    else
      var m := ms[|ms| - 1];
      Scored(id, ms[..|ms| - 1], keys) + (if Counted(m, keys) then GoalsFor(m, id) else 0)
  }

  function Conceded(id: Id, ms: seq<Match>, keys: set<Id>): int {
    if ms == [] then 0
    else
      var m := ms[|ms| - 1];
      Conceded(id, ms[..|ms| - 1], keys) + (if Counted(m, keys) then GoalsAgainst(m, id) else 0)
  }

  /** Team `id`'s record after the counted matches of `ms`, written out from its
      history: counters are counts of outcomes, points are 3 per win and 1 per
      draw, the form is the whole history. */
  function Tally(id: Id, name: string, ms: seq<Match>, keys: set<Id>): Standing {
    var h := History(id, ms, keys);
    Standing(id, name, |h|, Count(h, Win), Count(h, Draw), Count(h, Loss),
             Scored(id, ms, keys), Conceded(id, ms, keys), 0,
             3 * Count(h, Win) + Count(h, Draw), h, 0)
  }

  lemma {:induction false} CountAppend(a: seq<Outcome>, b: seq<Outcome>, o: Outcome)
    ensures Count(a + b, o) == Count(a, o) + Count(b, o)
  {
    if b == [] {
      assert a + b == a;
    } else {
      assert (a + b)[..|a + b| - 1] == a + b[..|b| - 1];
      CountAppend(a, b[..|b| - 1], o);
    }
  }

  /** Every outcome is a win, a draw or a loss. */
  lemma {:induction false} CountSplit(s: seq<Outcome>)
    ensures |s| == Count(s, Win) + Count(s, Draw) + Count(s, Loss)
  {
    if s != [] {
      CountSplit(s[..|s| - 1]);
    }
  }

  /** The fold's step credits every key by `Credit`, a team meeting itself included. */
  lemma ApplyMatchAt(stats: map<Id, Standing>, m: Match, id: Id)
    requires Counted(m, stats.Keys) && id in stats
    ensures ApplyMatch(stats, m).Keys == stats.Keys
    ensures ApplyMatch(stats, m)[id] == Credit(stats[id], m, id)
  {
    var o := Outcomes(m, id);
    CountSmall(o);
    var x := stats[id];
    var hg, ag := m.homeGoals.value, m.awayGoals.value;
    if id != m.homeId && id != m.awayId {
      assert o == [];
      assert Credit(x, m, id) == x;
    } else if m.homeId != m.awayId {
      if id == m.homeId {
        HomeCredit(stats, m);
      } else {
        AwayCredit(stats, m);
      }
    } else {
      SelfCredit(stats, m);
    }
  }

  lemma HomeCredit(stats: map<Id, Standing>, m: Match)
    requires Counted(m, stats.Keys) && m.homeId != m.awayId
    ensures ApplyMatch(stats, m)[m.homeId] == Credit(stats[m.homeId], m, m.homeId)
  {
    var x, h := stats[m.homeId], m.homeId;
    var hg, ag := m.homeGoals.value, m.awayGoals.value;
    var o := Outcomes(m, h);
    CountSmall(o);
    var y := Side(x, hg, ag);
    if hg > ag {
      assert o == [Win];
      assert ApplyMatch(stats, m)[h] == Record(y, Win);
    } else if hg < ag {
      assert o == [Loss];
      assert ApplyMatch(stats, m)[h] == Record(y, Loss);
    } else {
      assert o == [Draw];
      assert ApplyMatch(stats, m)[h] == Record(y, Draw);
    }
  }

  lemma AwayCredit(stats: map<Id, Standing>, m: Match)
    requires Counted(m, stats.Keys) && m.homeId != m.awayId
    ensures ApplyMatch(stats, m)[m.awayId] == Credit(stats[m.awayId], m, m.awayId)
  {
    var x, a := stats[m.awayId], m.awayId;
    var hg, ag := m.homeGoals.value, m.awayGoals.value;
    var o := Outcomes(m, a);
    CountSmall(o);
    var y := Side(x, ag, hg);
    if hg > ag {
      assert o == [Loss];
      assert ApplyMatch(stats, m)[a] == Record(y, Loss);
    } else if hg < ag {
      assert o == [Win];
      assert ApplyMatch(stats, m)[a] == Record(y, Win);
    } else {
      assert o == [Draw];
      assert ApplyMatch(stats, m)[a] == Record(y, Draw);
    }
  }

  lemma SelfCredit(stats: map<Id, Standing>, m: Match)
    requires Counted(m, stats.Keys) && m.homeId == m.awayId
    ensures ApplyMatch(stats, m)[m.homeId] == Credit(stats[m.homeId], m, m.homeId)
  {
    var x, h := stats[m.homeId], m.homeId;
    var hg, ag := m.homeGoals.value, m.awayGoals.value;
    var o := Outcomes(m, h);
    CountSmall(o);
    var y := Side(Side(x, hg, ag), ag, hg);
    if hg > ag {
      assert o == [Win, Loss];
      assert ApplyMatch(stats, m)[h] == Record(Record(y, Win), Loss);
    } else if hg < ag {
      assert o == [Win, Loss];
      assert ApplyMatch(stats, m)[h] == Record(Record(y, Win), Loss);
    } else {
      assert o == [Draw, Draw];
      assert ApplyMatch(stats, m)[h] == Record(Record(y, Draw), Draw);
    }
  }

  /** Counts in sequences of at most two outcomes. */
  lemma CountSmall(o: seq<Outcome>)
    requires |o| <= 2
    ensures forall x :: Count(o, x) == (if |o| > 0 && o[0] == x then 1 else 0) + (if |o| > 1 && o[1] == x then 1 else 0)
  {
    if |o| == 2 {
      assert o[..1] == [o[0]];
      assert [o[0]][..0] == [];
    } else if |o| == 1 {
      assert o[..0] == [];
    }
  }

  /** One more match extends the closed form by `Credit`. */
  lemma TallyStep(id: Id, name: string, ms: seq<Match>, m: Match, keys: set<Id>)
    requires Counted(m, keys)
    ensures Tally(id, name, ms + [m], keys) == Credit(Tally(id, name, ms, keys), m, id)
  {
    assert (ms + [m])[..|ms|] == ms;
    var h := History(id, ms, keys);
    var o := Outcomes(m, id);
    CountAppend(h, o, Win);
    CountAppend(h, o, Draw);
    CountAppend(h, o, Loss);
  }

  lemma TallySkip(id: Id, name: string, ms: seq<Match>, m: Match, keys: set<Id>)
    requires !Counted(m, keys)
    ensures Tally(id, name, ms + [m], keys) == Tally(id, name, ms, keys)
  {
    assert (ms + [m])[..|ms + [m]| - 1] == ms;
    assert History(id, ms + [m], keys) == History(id, ms, keys) + [];
    assert History(id, ms + [m], keys) == History(id, ms, keys);
    assert Scored(id, ms + [m], keys) == Scored(id, ms, keys);
    assert Conceded(id, ms + [m], keys) == Conceded(id, ms, keys);
  }

  /** The fold leaves every team with its closed-form record. */
  lemma {:induction false} ApplyIsTally(teams: seq<Team>, ms: seq<Match>, id: Id)
    requires id in IdSet(teams)
    ensures Apply(Initial(teams), ms).Keys == IdSet(teams)
    ensures Apply(Initial(teams), ms)[id] == Tally(id, NameOf(teams, id), ms, IdSet(teams))
  {
    var keys := IdSet(teams);
    ApplyKeys(Initial(teams), ms);
    if ms == [] {
    } else {
      var prior, m := ms[..|ms| - 1], ms[|ms| - 1];
      assert ms == prior + [m];
      ApplyIsTally(teams, prior, id);
      var before := Apply(Initial(teams), prior);
      if Counted(m, keys) {
        ApplyMatchAt(before, m, id);
        TallyStep(id, NameOf(teams, id), prior, m, keys);
      } else {
        TallySkip(id, NameOf(teams, id), prior, m, keys);
      }
    }
  }

  // ---------------------------------------------------------------------------
  // Properties of the table

  /** Every row is its team's record in closed form, finalized, with rank equal
      to its position plus one. */
  lemma TableRow(teams: seq<Team>, matches: seq<Match>, collate: (string, string) -> int, i: nat)
    requires i < |Table(teams, matches, collate)|
    ensures var t := Table(teams, matches, collate);
            && t[i].id in IdSet(teams)
            && t[i] == Finalize(Tally(t[i].id, NameOf(teams, t[i].id), Ordered(matches), IdSet(teams))).(rank := i + 1)
  {
    var u := Unsorted(teams, matches);
    var sorted := SortedRows(teams, matches, collate);
    SortMembers(u, ByRank(collate));
    assert sorted[i] in u;
    var k :| 0 <= k < |u| && u[k] == sorted[i];
    var id := Keys(teams)[k];
    ApplyIsTally(teams, Ordered(matches), id);
  }

  /** Row arithmetic: 3 points a win and 1 a draw, every match played is won,
      drawn or lost, goal difference is goals for minus against, and at most
      five form entries. */
  lemma TableArithmetic(teams: seq<Team>, matches: seq<Match>, collate: (string, string) -> int)
    ensures forall r :: r in Table(teams, matches, collate) ==>
              && r.pts == 3 * r.w + r.d
              && r.played == r.w + r.d + r.l
              && r.w >= 0 && r.d >= 0 && r.l >= 0
              && r.gd == r.gf - r.ga
              && |r.form| <= 5
              && |r.form| == if r.played < 5 then r.played else 5
  {
    var t := Table(teams, matches, collate);
    forall r | r in t
      ensures r.pts == 3 * r.w + r.d && r.played == r.w + r.d + r.l
      ensures r.w >= 0 && r.d >= 0 && r.l >= 0 && r.gd == r.gf - r.ga
      ensures |r.form| <= 5 && |r.form| == if r.played < 5 then r.played else 5
    {
      var i :| 0 <= i < |t| && t[i] == r;
      TableRow(teams, matches, collate, i);
      CountSplit(History(r.id, Ordered(matches), IdSet(teams)));
    }
  }

  /** The last five entries reversed are the newest first. */
  lemma NewestFirst<T>(h: seq<T>)
    ensures |Reverse(LastFive(h))| == if |h| < 5 then |h| else 5
    ensures forall k :: 0 <= k < |Reverse(LastFive(h))| ==> Reverse(LastFive(h))[k] == h[|h| - 1 - k]
  {
  }

  /** One row per team: as many rows as distinct team ids, no id twice, and
      every team id present. */
  lemma TableIds(teams: seq<Team>, matches: seq<Match>, collate: (string, string) -> int)
    ensures var t := Table(teams, matches, collate);
            && |t| == |Keys(teams)|
            && (forall i, j :: 0 <= i < j < |t| ==> t[i].id != t[j].id)
            && (forall id :: id in IdSet(teams) <==> exists i :: 0 <= i < |t| && t[i].id == id)
  {
    var keys := Keys(teams);
    var u := Unsorted(teams, matches);
    UnsortedIds(teams, matches);
    var sorted := SortedRows(teams, matches, collate);
    SortedIds(u, keys, ByRank(collate));
    var t := Table(teams, matches, collate);
    assert forall i :: 0 <= i < |t| ==> t[i].id == sorted[i].id;
  }

  /** The records after the fold carry the keys, in key order. */
  lemma UnsortedIds(teams: seq<Team>, matches: seq<Match>)
    ensures |Unsorted(teams, matches)| == |Keys(teams)|
    ensures forall k :: 0 <= k < |Keys(teams)| ==> Unsorted(teams, matches)[k].id == Keys(teams)[k]
  {
    var keys := Keys(teams);
    forall k | 0 <= k < |keys| ensures Unsorted(teams, matches)[k].id == keys[k] {
      ApplyIsTally(teams, Ordered(matches), keys[k]);
    }
  }

  /** Sorting rows whose ids are distinct keys keeps one row per key. */
  lemma SortedIds(u: seq<Standing>, keys: seq<Id>, before: (Standing, Standing) -> bool)
    requires |u| == |keys| && Distinct(keys)
    requires forall k :: 0 <= k < |u| ==> u[k].id == keys[k]
    ensures var sorted := StableSort(u, before);
            && |sorted| == |keys|
            && (forall i, j :: 0 <= i < j < |sorted| ==> sorted[i].id != sorted[j].id)
            && (forall id :: id in keys <==> exists i :: 0 <= i < |sorted| && sorted[i].id == id)
  {
    var sorted := StableSort(u, before);
    assert Distinct(u) by {
      forall a, b | 0 <= a < b < |u| ensures u[a] != u[b] {
        assert u[a].id == keys[a] && u[b].id == keys[b];
      }
    }
    SortDistinct(u, before);
    SortMembers(u, before);
    forall i, j | 0 <= i < j < |sorted| ensures sorted[i].id != sorted[j].id {
      assert sorted[i] in u && sorted[j] in u;
      var a :| 0 <= a < |u| && u[a] == sorted[i];
      var b :| 0 <= b < |u| && u[b] == sorted[j];
      assert a != b;
      assert keys[a] != keys[b];
    }
    forall id | id in keys ensures exists i :: 0 <= i < |sorted| && sorted[i].id == id {
      var k :| 0 <= k < |keys| && keys[k] == id;
      assert u[k] in sorted;
      var i :| 0 <= i < |sorted| && sorted[i] == u[k];
    }
    forall i | 0 <= i < |sorted| ensures sorted[i].id in keys {
      assert sorted[i] in u;
    }
  }

  /** With distinct team ids there is exactly one row per team. */
  lemma TableSize(teams: seq<Team>, matches: seq<Match>, collate: (string, string) -> int)
    requires DistinctTeamIds(teams)
    ensures |Table(teams, matches, collate)| == |teams|
  {
    KeysOfDistinct(teams);
    TableIds(teams, matches, collate);
  }

  /** A match without both scores, or with a side that is not one of the teams,
      changes nothing. */
  lemma TableIgnores(teams: seq<Team>, matches: seq<Match>, m: Match, collate: (string, string) -> int)
    requires !Counted(m, IdSet(teams))
    ensures Table(teams, matches + [m], collate) == Table(teams, matches, collate)
  {
    FoldIgnores(Initial(teams), matches, m);
    assert Unsorted(teams, matches + [m]) == Unsorted(teams, matches);
  }

  lemma FoldIgnores(init: map<Id, Standing>, matches: seq<Match>, m: Match)
    requires !Counted(m, init.Keys)
    ensures Apply(init, Ordered(matches + [m])) == Apply(init, Ordered(matches))
  {
    OrderedIgnores(matches, m);
    var o := Ordered(matches);
    if Played(m) {
      var j: nat :| j <= |o| && Ordered(matches + [m]) == o[..j] + [m] + o[j..];
      ApplySkips(init, o[..j], o[j..], m);
      assert o[..j] + o[j..] == o;
    }
  }

  /** A new match enters the visiting order somewhere, or not at all when unplayed. */
  lemma OrderedIgnores(matches: seq<Match>, m: Match)
    ensures !Played(m) ==> Ordered(matches + [m]) == Ordered(matches)
    ensures Played(m) ==>
              exists j: nat :: (j <= |Ordered(matches)|
                && Ordered(matches + [m]) == Ordered(matches)[..j] + [m] + Ordered(matches)[j..])
  {
    var ms := matches + [m];
    assert ms[..|ms| - 1] == matches;
    var p := PlayedMatches(matches);
    if Played(m) {
      assert PlayedMatches(ms) == p + [m];
      assert (p + [m])[..|p|] == p;
      var o := Ordered(matches);
      assert Ordered(ms) == Insert(m, o, Earlier);
      var j := InsertSplit(m, o, Earlier);
    } else {
      assert PlayedMatches(ms) == p;
    }
  }

  /** The fold passes over a match it does not count. */
  lemma ApplySkips(init: map<Id, Standing>, a: seq<Match>, b: seq<Match>, m: Match)
    requires !Counted(m, init.Keys)
    ensures Apply(init, a + [m] + b) == Apply(init, a + b)
  {
    ApplyAppend(init, a + [m], b);
    ApplyAppend(init, a, [m]);
    ApplyKeys(init, a);
    assert [m][..0] == [];
    assert Apply(Apply(init, a), [m]) == ApplyMatch(Apply(init, a), m);
    ApplyAppend(init, a, b);
  }

  // ---------------------------------------------------------------------------
  // Orders

  /** What the table sort needs of `localeCompare`: "puts first" is asymmetric
      and "does not put first" is transitive. */
  ghost predicate Collation(collate: (string, string) -> int) {
    && (forall a, b :: collate(a, b) < 0 ==> collate(b, a) >= 0)
    && (forall a, b, c :: collate(a, b) >= 0 && collate(b, c) >= 0 ==> collate(a, c) >= 0)
  }

  /** `a` may stand above `b`: more points; or as many and a better goal
      difference; or those equal and more goals for; or all three equal and
      `collate` does not put `b`'s name first. */
  predicate Above(collate: (string, string) -> int, a: Standing, b: Standing) {
    || a.pts > b.pts
    || (a.pts == b.pts && a.gd > b.gd)
    || (a.pts == b.pts && a.gd == b.gd && a.gf > b.gf)
    || (a.pts == b.pts && a.gd == b.gd && a.gf == b.gf && collate(b.name, a.name) >= 0)
  }

  /** The table comparator is a strict weak order when the collation is consistent. */
  lemma RowOrder(collate: (string, string) -> int)
    requires Collation(collate)
    ensures StrictWeakOrder(ByRank(collate))
  {
    var before := ByRank(collate);
    forall a, b, c | !before(a, b) && !before(b, c) ensures !before(a, c) {
      assert !RowBefore(collate, a, b) && !RowBefore(collate, b, c);
    }
    forall a, b | before(a, b) ensures !before(b, a) {
      assert RowBefore(collate, a, b);
    }
  }

  /** The match comparator is a strict weak order. */
  lemma MatchOrder()
    ensures StrictWeakOrder(Earlier)
  {
  }

  /** Sorted: every row may stand above every later row. */
  lemma TableSorted(teams: seq<Team>, matches: seq<Match>, collate: (string, string) -> int)
    requires Collation(collate)
    ensures var t := Table(teams, matches, collate);
            forall i, j :: 0 <= i < j < |t| ==> Above(collate, t[i], t[j])
  {
    RowOrder(collate);
    var u := Unsorted(teams, matches);
    SortSorted(u, ByRank(collate));
    RankedAbove(SortedRows(teams, matches, collate), collate);
  }

  lemma RankedAbove(sorted: seq<Standing>, collate: (string, string) -> int)
    requires Sorted(sorted, ByRank(collate))
    ensures forall i, j :: 0 <= i < j < |sorted| ==> Above(collate, Ranked(sorted)[i], Ranked(sorted)[j])
  {
    forall i, j | 0 <= i < j < |sorted| ensures Above(collate, Ranked(sorted)[i], Ranked(sorted)[j]) {
      assert !RowBefore(collate, sorted[j], sorted[i]);
    }
  }

  /** Stable: rows the comparator ties keep the key order (the division's team
      order) they had before the sort; numbering then follows positions. */
  lemma TableStable(teams: seq<Team>, matches: seq<Match>, collate: (string, string) -> int, x: Standing)
    requires Collation(collate)
    ensures TiedWith(SortedRows(teams, matches, collate), x, ByRank(collate))
         == TiedWith(Unsorted(teams, matches), x, ByRank(collate))
  {
    RowOrder(collate);
    SortStable(Unsorted(teams, matches), x, ByRank(collate));
  }

  /** The fold visits exactly the played matches, ordered by save time then round,
      matches with the same time and round in list order. */
  lemma OrderedProps(matches: seq<Match>, x: Match)
    ensures multiset(Ordered(matches)) == multiset(PlayedMatches(matches))
    ensures forall i, j :: 0 <= i < j < |Ordered(matches)| ==>
              var a, b := Ordered(matches)[i], Ordered(matches)[j];
              Stamp(a) < Stamp(b) || (Stamp(a) == Stamp(b) && a.round <= b.round)
    ensures TiedWith(Ordered(matches), x, Earlier) == TiedWith(PlayedMatches(matches), x, Earlier)
  {
    MatchOrder();
    SortPermutes(PlayedMatches(matches), Earlier);
    SortSorted(PlayedMatches(matches), Earlier);
    SortStable(PlayedMatches(matches), x, Earlier);
  }

  // ---------------------------------------------------------------------------
  // Column totals

  function Appearances(r: Standing): int { r.played }
  function GoalsScored(r: Standing): int { r.gf }
  function GoalsConceded(r: Standing): int { r.ga }
  function Wins(r: Standing): int { r.w }
  function Losses(r: Standing): int { r.l }

  /** 1 for a match the fold counts, else 0. */
  function CountedFlag(keys: set<Id>): Match -> int {
    m => if Counted(m, keys) then 1 else 0
  }

  /** How many matches of `ms` are counted. */
  function NumCounted(ms: seq<Match>, keys: set<Id>): nat {
    if ms == [] then 0
    else NumCounted(ms[..|ms| - 1], keys) + (if Counted(ms[|ms| - 1], keys) then 1 else 0)
  }

  function KeySum(keys: seq<Id>, g: Id -> int): int {
    if keys == [] then 0 else KeySum(keys[..|keys| - 1], g) + g(keys[|keys| - 1])
  }

  /** A sum over distinct keys of a function that is zero except at `h` and `a`. */
  lemma {:induction false} KeySumPair(keys: seq<Id>, g: Id -> int, h: Id, a: Id)
    requires Distinct(keys)
    requires forall k :: k != h && k != a ==> g(k) == 0
    ensures KeySum(keys, g) == (if h in keys then g(h) else 0) + (if a != h && a in keys then g(a) else 0)
  {
    if keys != [] {
      var p, k := keys[..|keys| - 1], keys[|keys| - 1];
      assert keys == p + [k];
      KeySumPair(p, g, h, a);
      assert k !in p;
    }
  }

  /** Totals of two lists whose entries differ pointwise by `g` of their keys. */
  lemma {:induction false} TotalPointwise(xs: seq<Standing>, ys: seq<Standing>, f: Standing -> int,
                                          keys: seq<Id>, g: Id -> int)
    requires |xs| == |keys| && |ys| == |keys|
    requires forall i :: 0 <= i < |keys| ==> f(ys[i]) == f(xs[i]) + g(keys[i])
    ensures Total(ys, f) == Total(xs, f) + KeySum(keys, g)
  {
    if keys != [] {
      var n := |keys| - 1;
      assert forall i :: 0 <= i < n ==> xs[..n][i] == xs[i] && ys[..n][i] == ys[i] && keys[..n][i] == keys[i];
      TotalPointwise(xs[..n], ys[..n], f, keys[..n], g);
    }
  }

  /** When each key's finalized record moves by `g`, the column total moves by
      the sum of `g`. */
  lemma RowsShift(keys: seq<Id>, a: map<Id, Standing>, b: map<Id, Standing>,
                  f: Standing -> int, g: Id -> int)
    requires forall k :: k in keys ==> k in a && k in b
    requires forall k :: k in keys ==> f(Finalize(b[k])) == f(Finalize(a[k])) + g(k)
    ensures Total(Rows(keys, b), f) == Total(Rows(keys, a), f) + KeySum(keys, g)
  {
    var ra, rb := Rows(keys, a), Rows(keys, b);
    forall i | 0 <= i < |keys|
      ensures f(rb[i]) == f(ra[i]) + g(keys[i])
    {
      assert keys[i] in keys;
    }
    TotalPointwise(ra, rb, f, keys, g);
  }

  /** A list whose entries all score zero totals zero. */
  lemma {:induction false} TotalZero(xs: seq<Standing>, f: Standing -> int)
    requires forall i :: 0 <= i < |xs| ==> f(xs[i]) == 0
    ensures Total(xs, f) == 0
  {
    if xs != [] {
      var n := |xs| - 1;
      assert forall i :: 0 <= i < n ==> xs[..n][i] == xs[i];
      TotalZero(xs[..n], f);
    }
  }

  lemma RowsZero(keys: seq<Id>, a: map<Id, Standing>, f: Standing -> int)
    requires forall k :: k in keys ==> k in a && f(Finalize(a[k])) == 0
    ensures Total(Rows(keys, a), f) == 0
  {
    var ra := Rows(keys, a);
    forall i | 0 <= i < |keys|
      ensures f(ra[i]) == 0
    {
      assert keys[i] in keys;
    }
    TotalZero(ra, f);
  }

  /** A column total after a step that moves only the records of `h` and `a`. */
  lemma ColumnStep(keys: seq<Id>, st: map<Id, Standing>, after: map<Id, Standing>,
                   f: Standing -> int, g: Id -> int, h: Id, a: Id)
    requires Distinct(keys) && h in keys && a in keys
    requires forall k :: k in keys ==> k in st && k in after
    requires forall k :: k in keys ==> f(Finalize(after[k])) == f(Finalize(st[k])) + g(k)
    requires forall k :: k != h && k != a ==> g(k) == 0
    ensures Total(Rows(keys, after), f) == Total(Rows(keys, st), f) + g(h) + (if a != h then g(a) else 0)
  {
    RowsShift(keys, st, after, f, g);
    KeySumPair(keys, g, h, a);
  }

  /** What one counted match adds to the column totals: two appearances, its
      goals once on each side, and one win with one loss unless drawn. */
  lemma StepTotals(keys: seq<Id>, st: map<Id, Standing>, m: Match)
    requires Distinct(keys) && (forall k :: k in keys <==> k in st) && Counted(m, st.Keys)
    ensures var after, goals := ApplyMatch(st, m), m.homeGoals.value + m.awayGoals.value;
            var decided := if m.homeGoals.value != m.awayGoals.value then 1 else 0;
            && Total(Rows(keys, after), Appearances) == Total(Rows(keys, st), Appearances) + 2
            && Total(Rows(keys, after), GoalsScored) == Total(Rows(keys, st), GoalsScored) + goals
            && Total(Rows(keys, after), GoalsConceded) == Total(Rows(keys, st), GoalsConceded) + goals
            && Total(Rows(keys, after), Wins) == Total(Rows(keys, st), Wins) + decided
            && Total(Rows(keys, after), Losses) == Total(Rows(keys, st), Losses) + decided
  {
    var after := ApplyMatch(st, m);
    StepCredits(keys, st, m);
    var h, a := m.homeId, m.awayId;
    var hg, ag := m.homeGoals.value, m.awayGoals.value;
    var decided := if hg != ag then 1 else 0;
    StepShares(m);
    assert Total(Rows(keys, after), Appearances) == Total(Rows(keys, st), Appearances) + 2 by {
      ColumnStep(keys, st, after, Appearances, (k: Id) => |Outcomes(m, k)|, h, a);
    }
    assert Total(Rows(keys, after), GoalsScored) == Total(Rows(keys, st), GoalsScored) + hg + ag by {
      ColumnStep(keys, st, after, GoalsScored, (k: Id) => GoalsFor(m, k), h, a);
    }
    assert Total(Rows(keys, after), GoalsConceded) == Total(Rows(keys, st), GoalsConceded) + hg + ag by {
      ColumnStep(keys, st, after, GoalsConceded, (k: Id) => GoalsAgainst(m, k), h, a);
    }
    assert Total(Rows(keys, after), Wins) == Total(Rows(keys, st), Wins) + decided by {
      ColumnStep(keys, st, after, Wins, (k: Id) => Count(Outcomes(m, k), Win), h, a);
    }
    assert Total(Rows(keys, after), Losses) == Total(Rows(keys, st), Losses) + decided by {
      ColumnStep(keys, st, after, Losses, (k: Id) => Count(Outcomes(m, k), Loss), h, a);
    }
  }

  lemma StepCredits(keys: seq<Id>, st: map<Id, Standing>, m: Match)
    requires (forall k :: k in keys <==> k in st) && Counted(m, st.Keys)
    ensures forall k :: k in keys ==> k in ApplyMatch(st, m) && ApplyMatch(st, m)[k] == Credit(st[k], m, k)
  {
    forall k | k in keys ensures k in ApplyMatch(st, m) && ApplyMatch(st, m)[k] == Credit(st[k], m, k) {
      ApplyMatchAt(st, m, k);
    }
  }

  /** How one match's credit splits between its two sides (one side when a team
      meets itself), and that no other team gets any. */
  lemma StepShares(m: Match)
    requires Played(m)
    ensures var h, a, hg, ag := m.homeId, m.awayId, m.homeGoals.value, m.awayGoals.value;
            var decided := if hg != ag then 1 else 0;
            && |Outcomes(m, h)| + (if a != h then |Outcomes(m, a)| else 0) == 2
            && GoalsFor(m, h) + (if a != h then GoalsFor(m, a) else 0) == hg + ag
            && GoalsAgainst(m, h) + (if a != h then GoalsAgainst(m, a) else 0) == hg + ag
            && Count(Outcomes(m, h), Win) + (if a != h then Count(Outcomes(m, a), Win) else 0) == decided
            && Count(Outcomes(m, h), Loss) + (if a != h then Count(Outcomes(m, a), Loss) else 0) == decided
            && forall k :: k != h && k != a ==>
                 Outcomes(m, k) == [] && GoalsFor(m, k) == 0 && GoalsAgainst(m, k) == 0
                 && Count(Outcomes(m, k), Win) == 0 && Count(Outcomes(m, k), Loss) == 0
  {
    CountSmall(Outcomes(m, m.homeId));
    CountSmall(Outcomes(m, m.awayId));
  }

  /** Column totals of the records after the fold: every counted match adds two
      appearances, and goals scored balance goals conceded, wins balance losses. */
  lemma {:induction false} FoldTotals(teams: seq<Team>, ms: seq<Match>)
    ensures var rows := Folded(teams, ms);
            && Total(rows, Appearances) == 2 * NumCounted(ms, IdSet(teams))
            && Total(rows, GoalsScored) == Total(rows, GoalsConceded)
            && Total(rows, Wins) == Total(rows, Losses)
  {
    if ms == [] {
      ZeroTotals(teams);
    } else {
      var prior, m := ms[..|ms| - 1], ms[|ms| - 1];
      FoldTotals(teams, prior);
      assert ms == prior + [m];
      FoldStep(teams, prior, m);
    }
  }

  lemma ZeroTotals(teams: seq<Team>)
    ensures var rows := Folded(teams, []);
            && Total(rows, Appearances) == 0
            && Total(rows, GoalsScored) == 0 && Total(rows, GoalsConceded) == 0
            && Total(rows, Wins) == 0 && Total(rows, Losses) == 0
  {
    var keys, init := Keys(teams), Initial(teams);
    assert Apply(init, []) == init;
    RowsZero(keys, init, Appearances);
    RowsZero(keys, init, GoalsScored);
    RowsZero(keys, init, GoalsConceded);
    RowsZero(keys, init, Wins);
    RowsZero(keys, init, Losses);
  }

  lemma FoldStep(teams: seq<Team>, prior: seq<Match>, m: Match)
    ensures var before, after := Folded(teams, prior), Folded(teams, prior + [m]);
            var flag := if Counted(m, IdSet(teams)) then 1 else 0;
            && NumCounted(prior + [m], IdSet(teams)) == NumCounted(prior, IdSet(teams)) + flag
            && Total(after, Appearances) == Total(before, Appearances) + 2 * flag
            && Total(after, GoalsScored) - Total(after, GoalsConceded)
               == Total(before, GoalsScored) - Total(before, GoalsConceded)
            && Total(after, Wins) - Total(after, Losses) == Total(before, Wins) - Total(before, Losses)
  {
    var ms := prior + [m];
    assert ms[..|ms| - 1] == prior;
    var init := Initial(teams);
    ApplyKeys(init, prior);
    var st := Apply(init, prior);
    assert Apply(init, ms) == ApplyMatch(st, m);
    if Counted(m, IdSet(teams)) {
      StepTotals(Keys(teams), st, m);
    }
  }

  /** Column totals of the table: appearances are twice the counted matches,
      goals for and against balance, and so do wins and losses. */
  lemma TableTotals(teams: seq<Team>, matches: seq<Match>, collate: (string, string) -> int)
    ensures var t := Table(teams, matches, collate);
            && Total(t, Appearances) == 2 * NumCounted(matches, IdSet(teams))
            && Total(t, GoalsScored) == Total(t, GoalsConceded)
            && Total(t, Wins) == Total(t, Losses)
  {
    var u := Unsorted(teams, matches);
    FoldTotals(teams, Ordered(matches));
    OrderedCount(matches, IdSet(teams));
    SortedTotals(u, ByRank(collate));
  }

  /** Sorting and numbering the rows leaves the column totals alone. */
  lemma SortedTotals(u: seq<Standing>, before: (Standing, Standing) -> bool)
    ensures var t := Ranked(StableSort(u, before));
            && Total(t, Appearances) == Total(u, Appearances)
            && Total(t, GoalsScored) == Total(u, GoalsScored)
            && Total(t, GoalsConceded) == Total(u, GoalsConceded)
            && Total(t, Wins) == Total(u, Wins)
            && Total(t, Losses) == Total(u, Losses)
  {
    var sorted := StableSort(u, before);
    var t := Ranked(sorted);
    SortTotal(u, before, Appearances);
    SortTotal(u, before, GoalsScored);
    SortTotal(u, before, GoalsConceded);
    SortTotal(u, before, Wins);
    SortTotal(u, before, Losses);
    TotalSame(t, sorted, Appearances);
    TotalSame(t, sorted, GoalsScored);
    TotalSame(t, sorted, GoalsConceded);
    TotalSame(t, sorted, Wins);
    TotalSame(t, sorted, Losses);
  }

  lemma {:induction false} TotalSame(s: seq<Standing>, t: seq<Standing>, f: Standing -> int)
    requires |s| == |t| && forall i :: 0 <= i < |s| ==> f(s[i]) == f(t[i])
    ensures Total(s, f) == Total(t, f)
  {
    if s != [] {
      TotalSame(s[..|s| - 1], t[..|t| - 1], f);
    }
  }

  /** The fold's visiting order counts as many matches as the list. */
  lemma OrderedCount(matches: seq<Match>, keys: set<Id>)
    ensures NumCounted(Ordered(matches), keys) == NumCounted(matches, keys)
  {
    NumCountedTotal(Ordered(matches), keys);
    NumCountedTotal(matches, keys);
    SortTotal(PlayedMatches(matches), Earlier, CountedFlag(keys));
    PlayedTotal(matches, keys);
  }

  lemma {:induction false} NumCountedTotal(ms: seq<Match>, keys: set<Id>)
    ensures NumCounted(ms, keys) == Total(ms, CountedFlag(keys))
  {
    if ms != [] {
      NumCountedTotal(ms[..|ms| - 1], keys);
    }
  }

  lemma {:induction false} PlayedTotal(ms: seq<Match>, keys: set<Id>)
    ensures Total(PlayedMatches(ms), CountedFlag(keys)) == Total(ms, CountedFlag(keys))
  {
    if ms != [] {
      var prior, m := ms[..|ms| - 1], ms[|ms| - 1];
      PlayedTotal(prior, keys);
      var p := PlayedMatches(prior);
      if Played(m) {
        assert PlayedMatches(ms) == p + [m];
        assert (p + [m])[..|p|] == p;
      } else {
        assert PlayedMatches(ms) == p;
      }
    }
  }
}
