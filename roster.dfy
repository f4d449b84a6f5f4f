/** The list surgery of `deleteTeam` (app.js:1229-1239): the team goes, and so
    does every match in which it plays, home or away. `Array.prototype.filter`
    is `Keep`. */
module Roster {
  import opened LeagueModel

  /** The elements of `s` that satisfy `p`, in their order. */
  function Keep<T(!new)>(s: seq<T>, p: T -> bool): (kept: seq<T>)
    ensures |kept| <= |s|
  {
    if s == [] then []
    else
      var x := s[|s| - 1];
      Keep(s[..|s| - 1], p) + (if p(x) then [x] else [])
  }

  /** The filter keeps every element that passes, as often as it occurs, and
      nothing else. */
  lemma {:induction false} KeepMembers<T(!new)>(s: seq<T>, p: T -> bool)
    ensures forall x :: multiset(Keep(s, p))[x] == if p(x) then multiset(s)[x] else 0
    ensures forall x :: x in Keep(s, p) <==> x in s && p(x)
  {
    if s != [] {
      var prior := s[..|s| - 1];
      var x := s[|s| - 1];
      assert s == prior + [x];
      KeepMembers(prior, p);
    }
  }

  /** Filtering commutes with concatenation, so the kept elements keep their
      relative order. */
  lemma {:induction false} KeepAppend<T(!new)>(a: seq<T>, b: seq<T>, p: T -> bool)
    ensures Keep(a + b, p) == Keep(a, p) + Keep(b, p)
  {
    if b != [] {
      var prior := b[..|b| - 1];
      assert (a + b)[..|a + b| - 1] == a + prior;
      KeepAppend(a, prior, p);
    } else {
      assert a + b == a;
    }
  }

  /** A filter whose test every element passes changes nothing. */
  lemma {:induction false} KeepAll<T(!new)>(s: seq<T>, p: T -> bool)
    requires forall i :: 0 <= i < |s| ==> p(s[i])
    ensures Keep(s, p) == s
  {
    if s != [] {
      var prior := s[..|s| - 1];
      assert forall i :: 0 <= i < |prior| ==> prior[i] == s[i];
      KeepAll(prior, p);
    }
  }

  /** Dropping the one element that fails the test shortens the list by one. */
  lemma {:induction false} KeepAllBut<T(!new)>(s: seq<T>, p: T -> bool, j: nat)
    requires j < |s| && !p(s[j])
    requires forall i :: 0 <= i < |s| && i != j ==> p(s[i])
    ensures Keep(s, p) == s[..j] + s[j + 1..]
  {
    var n := |s| - 1;
    var prior := s[..n];
    if j < n {
      assert forall i :: 0 <= i < |prior| ==> prior[i] == s[i];
      KeepAllBut(prior, p, j);
      assert prior[..j] + prior[j + 1..] + [s[n]] == s[..j] + s[j + 1..];
    } else {
      assert forall i :: 0 <= i < |prior| ==> prior[i] == s[i];
      KeepAll(prior, p);
    }
  }

  function NotTeam(teamId: Id): Team -> bool {
    (t: Team) => t.id != teamId
  }

  function Without(teamId: Id): Match -> bool {
    (m: Match) => m.homeId != teamId && m.awayId != teamId
  }

  /** `div.teams.filter(t => t.id !== teamId)`. */
  function DropTeam(teams: seq<Team>, teamId: Id): seq<Team> {
    Keep(teams, NotTeam(teamId))
  }

  /** `div.matches.filter(m => m.homeId !== teamId && m.awayId !== teamId)`. */
  function DropMatches(matches: seq<Match>, teamId: Id): seq<Match> {
    Keep(matches, Without(teamId))
  }

  /** After the deletion no team carries the id and no match mentions it; every
      other team and match is still there as often as before. */
  lemma DeletionEffect(teams: seq<Team>, matches: seq<Match>, teamId: Id)
    ensures forall t :: t in DropTeam(teams, teamId) <==> t in teams && t.id != teamId
    ensures forall m :: m in DropMatches(matches, teamId) <==>
              m in matches && m.homeId != teamId && m.awayId != teamId
    ensures forall t: Team :: t.id != teamId ==> multiset(DropTeam(teams, teamId))[t] == multiset(teams)[t]
  {
    KeepMembers(teams, NotTeam(teamId));
    KeepMembers(matches, Without(teamId));
  }

  /** With one team per id, deleting a team of the division removes exactly one
      entry, and deleting an unknown id removes none. */
  lemma DeleteCount(teams: seq<Team>, teamId: Id)
    requires DistinctTeamIds(teams)
    ensures teamId in IdSet(teams) ==> |DropTeam(teams, teamId)| == |teams| - 1
    ensures teamId !in IdSet(teams) ==> DropTeam(teams, teamId) == teams
  {
    if teamId in IdSet(teams) {
      var j :| 0 <= j < |teams| && teams[j].id == teamId;
      KeepAllBut(teams, NotTeam(teamId), j);
    } else {
      KeepAll(teams, NotTeam(teamId));
    }
  }

  /** Every match refers to teams of the division: deleting a team keeps it so. */
  predicate Consistent(teams: seq<Team>, matches: seq<Match>) {
    forall m :: m in matches ==> m.homeId in IdSet(teams) && m.awayId in IdSet(teams)
  }

  lemma TeamStays(teams: seq<Team>, teamId: Id, id: Id)
    requires id in IdSet(teams) && id != teamId
    requires forall t :: t in DropTeam(teams, teamId) <==> t in teams && NotTeam(teamId)(t)
    ensures id in IdSet(DropTeam(teams, teamId))
  {
    var kept := DropTeam(teams, teamId);
    var h :| 0 <= h < |teams| && teams[h].id == id;
    assert teams[h] in kept;
    var k :| 0 <= k < |kept| && kept[k] == teams[h];
  }

  lemma DeleteKeepsConsistent(teams: seq<Team>, matches: seq<Match>, teamId: Id)
    requires Consistent(teams, matches)
    ensures Consistent(DropTeam(teams, teamId), DropMatches(matches, teamId))
  {
    var kept := DropTeam(teams, teamId);
    KeepMembers(teams, NotTeam(teamId));
    KeepMembers(matches, Without(teamId));
    forall m | m in DropMatches(matches, teamId)
      ensures m.homeId in IdSet(kept) && m.awayId in IdSet(kept)
    {
      assert m in matches && Without(teamId)(m);
      TeamStays(teams, teamId, m.homeId);
      TeamStays(teams, teamId, m.awayId);
    }
  }
}
