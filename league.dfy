/** The mutable league objects and the operations that change them in place:
    the rank-cache refresh of `renderStandings` (app.js:325-428), the end of a
    season (app.js:1484-1511), the creation of the next season (app.js:1100-1127)
    and the deletion of a team (app.js:1229-1239). The league, season and
    division an operation acts on are passed explicitly; fresh ids come from an
    oracle `mint` (its k-th answer is the k-th call of `nowId`) and clock readings
    are parameters. */
module League {
  import opened LeagueModel
  import Standings
  import opened Ranks
  import opened Snapshots
  import opened SeasonNames
  import opened Roster

  /** `season.history`: snapshots filed by division id. Several seasons may
      share one of these objects. */
  class SeasonHistory {
    var snapshots: map<Id, seq<Snapshot>>

    /** The `{}` of `season.history || {}`. */
    constructor ()
      ensures snapshots == map[]
    {
      snapshots := map[];
    }
  }

  class Division {
    const id: Id
    var name: string
    var logo: string
    var teams: seq<Team>
    var matches: seq<Match>
    var rankColors: seq<RankBand>
    var lastRankMap: map<Id, int>

    /** The copy `createNextSeason` makes of division `from`: a new id, the same
        name, logo, teams and bands, no matches and no saved ranks. */
    constructor CopyOf(id: Id, from: Division)
      ensures Copied(this, from, id)
    {
      this.id := id;
      name := from.name;
      logo := from.logo;
      teams := from.teams;
      matches := [];
      rankColors := from.rankColors;
      lastRankMap := map[];
    }

    /** The state `renderStandings` works on: compute the table, build the map
        `teamId -> rank`, decorate every row with its band colour and with its
        arrow against the ranks saved last time, and only then replace the saved
        ranks. */
    method RefreshRanks(collate: (string, string) -> int)
      returns (table: seq<Standing>, colors: seq<string>, arrows: seq<Arrow>)
      modifies this
      ensures table == Standings.Table(teams, matches, collate)
      ensures |colors| == |table| && |arrows| == |table|
      ensures forall i :: 0 <= i < |table| ==>
                && colors[i] == RankBandColor(rankColors, table[i].rank)
                && arrows[i] == ArrowForRank(old(lastRankMap), table[i].id, table[i].rank)
      ensures lastRankMap == RankMap(table)
      ensures name == old(name) && logo == old(logo) && teams == old(teams)
      ensures matches == old(matches) && rankColors == old(rankColors)
    {
      table := Standings.ComputeTable(teams, matches, collate);
      var next := BuildRankMap(table);
      colors, arrows := Decorate(table, rankColors, lastRankMap);
      lastRankMap := next;
    }
  }

  /** `copy` is the division `createNextSeason` derives from `orig` under `id`. */
  predicate Copied(copy: Division, orig: Division, id: Id)
    reads copy, orig
  {
    && copy.id == id
    && copy.name == orig.name
    && copy.logo == orig.logo
    && copy.teams == orig.teams
    && copy.rankColors == orig.rankColors
    && copy.matches == []
    && copy.lastRankMap == map[]
  }

  /** The archived rows of a division: its table without the form column. */
  function Archive(collate: (string, string) -> int): (seq<Team>, seq<Match>) -> seq<SnapshotRow> {
    (teams: seq<Team>, matches: seq<Match>) => StripAll(Standings.Table(teams, matches, collate))
  }

  /** What the end of a season reads of each division, in division order. */
  function Filings(divs: seq<Division>): (fs: seq<Filing>)
    reads divs
    ensures |fs| == |divs|
    ensures forall k :: 0 <= k < |divs| ==> fs[k] == Filing(divs[k].id, divs[k].teams, divs[k].matches)
  {
    if divs == [] then []
    else
      var n := |divs| - 1;
      Filings(divs[..n]) + [Filing(divs[n].id, divs[n].teams, divs[n].matches)]
  }

  /** Divisions whose fields are untouched file the same contents. */
  twostate lemma {:induction false} FilingsUnchanged(divs: seq<Division>)
    requires forall k :: 0 <= k < |divs| ==> unchanged(divs[k])
    ensures Filings(divs) == old(Filings(divs))
  {
    if divs != [] {
      FilingsUnchanged(divs[..|divs| - 1]);
    }
  }

  /** `computeTable(div)` followed by the row mapping of app.js:1489-1497. */
  method ArchiveRows(teams: seq<Team>, matches: seq<Match>, collate: (string, string) -> int)
    returns (rows: seq<SnapshotRow>)
    ensures rows == Archive(collate)(teams, matches)
  {
    var table := Standings.ComputeTable(teams, matches, collate);
    rows := StripAll(table);
  }

  /** The loop of `endSeasonWithMatches`: for each division, compute its table,
      strip the form column, copy the matches and push the snapshot. */
  method FileSnapshots(h: SeasonHistory, divs: seq<Division>, seasonId: Id, seasonName: string,
                       clock: nat -> int, collate: (string, string) -> int, ghost filed: seq<(Id, Snapshot)>)
    requires filed == Entries(Filings(divs), seasonId, seasonName, clock, Archive(collate))
    modifies h
    ensures h.snapshots == Pushed(old(h.snapshots), filed)
  {
    ghost var fs := Filings(divs);
    ghost var archive := Archive(collate);
    for k := 0 to |divs|
      invariant h.snapshots == Pushed(old(h.snapshots), Entries(fs[..k], seasonId, seasonName, clock, archive))
    {
      var div := divs[k];
      var rows := ArchiveRows(div.teams, div.matches, collate);
      var snap := Snapshot(seasonId, seasonName, clock(k), rows, div.matches);
      FileStep(old(h.snapshots), fs, seasonId, seasonName, clock, archive, k, snap);
      h.snapshots := h.snapshots[div.id := Get(h.snapshots, div.id) + [snap]];
    }
    assert fs[..|divs|] == fs;
  }

  /** The outcome of `deleteTeam`. */
  datatype Deletion = NoDivision | TooFew | Deleted

  /** `season.divisions.find(d => d.id === divId)`, as a position. */
  function FindDivision(divs: seq<Division>, divId: Id): (found: Option<nat>)
    ensures found.None? <==> forall k :: 0 <= k < |divs| ==> divs[k].id != divId
    ensures found.Some? ==> found.value < |divs| && divs[found.value].id == divId
                            && forall k :: 0 <= k < found.value ==> divs[k].id != divId
  {
    if divs == [] then None
    else if divs[0].id == divId then Some(0)
    else
      var rest := FindDivision(divs[1..], divId);
      assert forall k :: 1 <= k < |divs| ==> divs[k] == divs[1..][k - 1];
      if rest.None? then None else Some(rest.value + 1)
  }

  class Season {
    const id: Id
    var name: string
    var createdAt: int
    var endedAt: Option<int>
    var divisions: seq<Division>
    var history: SeasonHistory?

    constructor (id: Id, name: string, createdAt: int, divisions: seq<Division>, history: SeasonHistory?)
      ensures this.id == id && this.name == name && this.createdAt == createdAt
      ensures endedAt == None && this.divisions == divisions && this.history == history
    {
      this.id := id;
      this.name := name;
      this.createdAt := createdAt;
      endedAt := None;
      this.divisions := divisions;
      this.history := history;
    }

    /** `season.history = season.history || {}`. */
    method EnsureHistory() returns (h: SeasonHistory)
      modifies this
      ensures h == history
      ensures old(history) != null ==> h == old(history) && h.snapshots == old(history.snapshots)
      ensures old(history) == null ==> fresh(h) && h.snapshots == map[]
      ensures name == old(name) && createdAt == old(createdAt) && endedAt == old(endedAt)
      ensures divisions == old(divisions)
    {
      if history == null {
        history := new SeasonHistory();
      }
      h := history;
    }

    /** `endSeasonWithMatches`: make sure there is a history, push one snapshot
        per division onto the list filed under its id, then set `endedAt`. The
        k-th clock reading dates the k-th division's snapshot, the last one the
        end of the season. */
    method EndSeasonWithMatches(collate: (string, string) -> int, clock: nat -> int)
      modifies this, history
      ensures history != null
      ensures old(history) != null ==> history == old(history)
      ensures old(history) == null ==> fresh(history)
      ensures history.snapshots
                == Pushed(if old(history) == null then map[] else old(history.snapshots),
                          Entries(old(Filings(divisions)), id, name, clock, Archive(collate)))
      ensures endedAt == Some(clock(|divisions|))
      ensures name == old(name) && createdAt == old(createdAt) && divisions == old(divisions)
    {
      ghost var filed := Entries(Filings(divisions), id, name, clock, Archive(collate));
      ghost var start := if history == null then map[] else history.snapshots;
      var h := EnsureHistory();
      FilingsUnchanged(divisions);
      FileSnapshots(h, divisions, id, name, clock, collate, filed);
      endedAt := Some(clock(|divisions|));
    }

    /** `deleteTeam`: find the division; refuse when it has two teams or fewer;
        otherwise drop the team and every match it plays in. Nothing else
        changes. */
    method DeleteTeam(divId: Id, teamId: Id) returns (outcome: Deletion)
      modifies divisions
      ensures outcome == NoDivision <==> FindDivision(divisions, divId).None?
      ensures outcome == NoDivision ==> forall j :: 0 <= j < |divisions| ==> unchanged(divisions[j])
      ensures FindDivision(divisions, divId).Some? ==>
                var d := divisions[FindDivision(divisions, divId).value];
                && (forall j :: 0 <= j < |divisions| && divisions[j] != d ==> unchanged(divisions[j]))
                && d.name == old(d.name) && d.logo == old(d.logo)
                && d.rankColors == old(d.rankColors) && d.lastRankMap == old(d.lastRankMap)
                && (outcome == TooFew <==> |old(d.teams)| <= 2)
                && (outcome == TooFew ==> d.teams == old(d.teams) && d.matches == old(d.matches))
                && (outcome == Deleted ==> d.teams == DropTeam(old(d.teams), teamId)
                                           && d.matches == DropMatches(old(d.matches), teamId))
    {
      var found := FindDivision(divisions, divId);
      if found.None? {
        return NoDivision;
      }
      var d := divisions[found.value];
      if |d.teams| <= 2 {
        return TooFew;
      }
      d.teams := DropTeam(d.teams, teamId);
      d.matches := DropMatches(d.matches, teamId);
      outcome := Deleted;
    }
  }

  class League {
    const id: Id
    var name: string
    var logo: string
    var seasons: seq<Season>

    /** `createNextSeason`: a new season named after the current one's number
        plus one, whose divisions are fresh copies of the current ones, and which
        shares the current season's history object (a new empty one when the
        current season has none). `mint(0)` is the season's id and `mint(k + 1)`
        the id of its k-th division, in the order the source draws them. */
    method CreateNextSeason(current: Season, mint: nat -> Id, now: int) returns (s: Season)
      modifies this
      ensures fresh(s)
      ensures seasons == old(seasons) + [s]
      ensures name == old(name) && logo == old(logo)
      ensures s.id == mint(0) && s.name == SeasonName(NextNumber(current.name, |old(seasons)|))
      ensures s.createdAt == now && s.endedAt == None
      ensures |s.divisions| == |current.divisions|
      ensures forall k :: 0 <= k < |s.divisions| ==>
                fresh(s.divisions[k]) && Copied(s.divisions[k], current.divisions[k], mint(k + 1))
      ensures forall i, j :: 0 <= i < j < |s.divisions| ==> s.divisions[i] != s.divisions[j]
      ensures current.history != null ==> s.history == current.history
      ensures current.history == null ==> s.history != null && fresh(s.history) && s.history.snapshots == map[]
    {
      var divs: seq<Division> := [];
      for k := 0 to |current.divisions|
        invariant unchanged(this)
        invariant |divs| == k
        invariant forall j :: 0 <= j < k ==> fresh(divs[j]) && Copied(divs[j], current.divisions[j], mint(j + 1))
        invariant forall i, j :: 0 <= i < j < k ==> divs[i] != divs[j]
      {
        var d := new Division.CopyOf(mint(k + 1), current.divisions[k]);
        divs := divs + [d];
      }
      var h := current.history;
      if h == null {
        h := new SeasonHistory();
      }
      s := new Season(mint(0), SeasonName(NextNumber(current.name, |seasons|)), now, divs, h);
      seasons := seasons + [s];
    }
  }

  /** Redrawing a table right after its ranks were saved shows every arrow
      level: the table has one row per team. */
  lemma RedrawSettles(teams: seq<Team>, matches: seq<Match>, collate: (string, string) -> int)
    ensures var t := Standings.Table(teams, matches, collate);
            forall i :: 0 <= i < |t| ==> ArrowForRank(RankMap(t), t[i].id, t[i].rank) == Same
  {
    Standings.TableIds(teams, matches, collate);
    RefreshSettles(Standings.Table(teams, matches, collate));
  }

  /** The history is one shared object: ending the season created from
      `current` files the new snapshots where `current` shows its history too. */
  method EndNextSeason(league: League, current: Season, mint: nat -> Id, now: int,
                       collate: (string, string) -> int, clock: nat -> int) returns (next: Season)
    requires current.history != null
    modifies league, current.history
    ensures next.history == current.history
    ensures current.history.snapshots
              == Pushed(old(current.history.snapshots), Entries(Filings(next.divisions), next.id, next.name, clock, Archive(collate)))
  {
    next := league.CreateNextSeason(current, mint, now);
    label Created:
    next.EndSeasonWithMatches(collate, clock);
    FilingsUnchanged@Created(next.divisions);
  }
}
