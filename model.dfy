/** Entities shared by the competition engine: teams, matches, rank bands,
    standing rows and the small sequence helpers the other modules use. */
module LeagueModel {

  /** Optional values: the source's `null` (a bye slot, a missing score). */
  datatype Option<T> = None | Some(value: T)

  /** Every entity is identified by an opaque string minted by the application. */
  type Id = string

  datatype Team = Team(id: Id, name: string, logo: string, comment: string)

  /** A fixture or result. Goals and the time the result was saved are absent
      while the match is unplayed. */
  datatype Match = Match(
    id: Id,
    round: int,
    homeId: Id,
    awayId: Id,
    homeGoals: Option<int>,
    awayGoals: Option<int>,
    playedAt: Option<int>)

  /** A coloured zone of the table: ranks `from` to `to`, both inclusive; `caption`
      is the source's `label` (a reserved word in Dafny). */
  datatype RankBand = RankBand(from: int, to: int, color: string, caption: string)

  /** One recent-form token: 'w', 'd' or 'l'. */
  datatype Outcome = Win | Draw | Loss

  /** One row of the standings table. */
  datatype Standing = Standing(
    id: Id,
    name: string,
    played: int,
    w: int,
    d: int,
    l: int,
    gf: int,
    ga: int,
    gd: int,
    pts: int,
    form: seq<Outcome>,
    rank: int)

  function TeamIds(teams: seq<Team>): (ids: seq<Id>)
    ensures |ids| == |teams|
    ensures forall i :: 0 <= i < |teams| ==> ids[i] == teams[i].id
  {
    seq(|teams|, i requires 0 <= i < |teams| => teams[i].id)
  }

  function IdSet(teams: seq<Team>): (ids: set<Id>)
    ensures forall id :: id in ids <==> exists i :: 0 <= i < |teams| && teams[i].id == id
  {
    set i | 0 <= i < |teams| :: teams[i].id
  }

  /** No value occurs twice. */
  predicate Distinct<T(==)>(s: seq<T>) {
    forall i, j :: 0 <= i < j < |s| ==> s[i] != s[j]
  }

  /** In a sequence without repeats, an entry's value pins down its position. */
  lemma DistinctAt<T>(s: seq<T>, i: nat, j: nat)
    requires Distinct(s) && i < |s| && j < |s|
    ensures s[i] == s[j] <==> i == j
  {
  }

  predicate DistinctTeamIds(teams: seq<Team>) {
    forall i, j :: 0 <= i < |teams| && 0 <= j < |teams| && i != j ==> teams[i].id != teams[j].id
  }

  function Reverse<T>(s: seq<T>): (r: seq<T>)
    ensures |r| == |s|
    ensures forall k :: 0 <= k < |s| ==> r[k] == s[|s| - 1 - k]
  {
    if s == [] then [] else [s[|s| - 1]] + Reverse(s[..|s| - 1])
  }
}
