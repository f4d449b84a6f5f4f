/** The season history kept per division (app.js:1484-1508): each end of season
    appends one snapshot, the standings without the form column plus a copy of
    the match list, to the list stored under the division's id. */
module Snapshots {
  import opened LeagueModel

  /** A standings row as it is archived: every column but `form`. */
  datatype SnapshotRow = SnapshotRow(
    teamId: Id,
    teamName: string,
    rank: int,
    played: int,
    w: int,
    d: int,
    l: int,
    gf: int,
    ga: int,
    gd: int,
    pts: int)

  datatype Snapshot = Snapshot(
    seasonId: Id,
    seasonName: string,
    savedAt: int,
    rows: seq<SnapshotRow>,
    matches: seq<Match>)

  /** The row mapping of app.js:1489-1497. */
  function Strip(r: Standing): SnapshotRow {
    SnapshotRow(r.id, r.name, r.rank, r.played, r.w, r.d, r.l, r.gf, r.ga, r.gd, r.pts)
  }

  /** Puts a form column back on an archived row. */
  function WithForm(s: SnapshotRow, form: seq<Outcome>): Standing {
    Standing(s.teamId, s.teamName, s.played, s.w, s.d, s.l, s.gf, s.ga, s.gd, s.pts, form, s.rank)
  }

  /** Archiving keeps every column but the form. */
  lemma StripKeeps(r: Standing)
    ensures WithForm(Strip(r), r.form) == r
  {
  }

  function StripAll(table: seq<Standing>): (rows: seq<SnapshotRow>)
    ensures |rows| == |table|
    ensures forall i :: 0 <= i < |table| ==> WithForm(rows[i], table[i].form) == table[i]
  {
    seq(|table|, i requires 0 <= i < |table| => Strip(table[i]))
  }

  /** What ending a season reads of one division: its id, teams and matches. */
  datatype Filing = Filing(divId: Id, teams: seq<Team>, matches: seq<Match>)

  /** The snapshot of a division, taken at `savedAt`; `archive` gives the rows
      archived for a division's teams and matches. */
  function SnapshotOf(f: Filing, seasonId: Id, seasonName: string, savedAt: int,
                      archive: (seq<Team>, seq<Match>) -> seq<SnapshotRow>): Snapshot
  {
    Snapshot(seasonId, seasonName, savedAt, archive(f.teams, f.matches), f.matches)
  }

  /** What ending a season files, in division order: the k-th division's
      snapshot is taken at the k-th clock reading. */
  function Entries(fs: seq<Filing>, seasonId: Id, seasonName: string, clock: nat -> int,
                   archive: (seq<Team>, seq<Match>) -> seq<SnapshotRow>): (entries: seq<(Id, Snapshot)>)
    ensures |entries| == |fs|
  {
    seq(|fs|, k requires 0 <= k < |fs| => (fs[k].divId, SnapshotOf(fs[k], seasonId, seasonName, clock(k), archive)))
  }

  /** `history[id] || []`. */
  function Get(h: map<Id, seq<Snapshot>>, id: Id): seq<Snapshot> {
    if id in h then h[id] else []
  }

  /** The history after pushing `entries` in order, each onto the list of its
      division id. */
  function Pushed(h: map<Id, seq<Snapshot>>, entries: seq<(Id, Snapshot)>): map<Id, seq<Snapshot>> {
    if entries == [] then h
    else
      var prior := Pushed(h, entries[..|entries| - 1]);
      var (id, snap) := entries[|entries| - 1];
      prior[id := Get(prior, id) + [snap]]
  }

  lemma PushedStep(h: map<Id, seq<Snapshot>>, entries: seq<(Id, Snapshot)>, e: (Id, Snapshot))
    ensures Pushed(h, entries + [e]) == Pushed(h, entries)[e.0 := Get(Pushed(h, entries), e.0) + [e.1]]
  {
    assert (entries + [e])[..|entries|] == entries;
  }

  /** One more division filed. */
  lemma FileStep(h: map<Id, seq<Snapshot>>, fs: seq<Filing>, seasonId: Id, seasonName: string,
                 clock: nat -> int, archive: (seq<Team>, seq<Match>) -> seq<SnapshotRow>, k: nat, snap: Snapshot)
    requires k < |fs|
    requires snap == SnapshotOf(fs[k], seasonId, seasonName, clock(k), archive)
    ensures var prior := Pushed(h, Entries(fs[..k], seasonId, seasonName, clock, archive));
            Pushed(h, Entries(fs[..k + 1], seasonId, seasonName, clock, archive))
              == prior[fs[k].divId := Get(prior, fs[k].divId) + [snap]]
  {
    var es := Entries(fs[..k], seasonId, seasonName, clock, archive);
    assert Entries(fs[..k + 1], seasonId, seasonName, clock, archive) == es + [(fs[k].divId, snap)];
    PushedStep(h, es, (fs[k].divId, snap));
  }

  /** The snapshots of `entries` filed under `id`, in order. */
  function Under(entries: seq<(Id, Snapshot)>, id: Id): seq<Snapshot> {
    if entries == [] then []
    else
      var e := entries[|entries| - 1];
      Under(entries[..|entries| - 1], id) + (if e.0 == id then [e.1] else [])
  }

  /** Pushing leaves what was filed and appends, under each id, exactly the new
      snapshots carrying that id; an id gains a list only through an entry. */
  lemma {:induction false} PushedAt(h: map<Id, seq<Snapshot>>, entries: seq<(Id, Snapshot)>, id: Id)
    ensures Get(Pushed(h, entries), id) == Get(h, id) + Under(entries, id)
    ensures id in Pushed(h, entries) <==> id in h || exists i :: 0 <= i < |entries| && entries[i].0 == id
  {
    if entries != [] {
      var prior := entries[..|entries| - 1];
      PushedAt(h, prior, id);
      assert forall i :: 0 <= i < |prior| ==> prior[i] == entries[i];
    }
  }

  /** With distinct division ids every division gets exactly its own snapshot. */
  lemma {:induction false} UnderDistinct(entries: seq<(Id, Snapshot)>, i: nat)
    requires i < |entries|
    requires forall a, b :: 0 <= a < b < |entries| ==> entries[a].0 != entries[b].0
    ensures Under(entries, entries[i].0) == [entries[i].1]
  {
    var n := |entries| - 1;
    var prior := entries[..n];
    if i < n {
      assert prior[i] == entries[i];
      UnderDistinct(prior, i);
    } else {
      UnderAbsent(prior, entries[i].0);
    }
  }

  lemma {:induction false} UnderAbsent(entries: seq<(Id, Snapshot)>, id: Id)
    requires forall a :: 0 <= a < |entries| ==> entries[a].0 != id
    ensures Under(entries, id) == []
  {
    if entries != [] {
      var prior := entries[..|entries| - 1];
      assert forall a :: 0 <= a < |prior| ==> prior[a] == entries[a];
      UnderAbsent(prior, id);
    }
  }

  /** Ending a season whose divisions have distinct ids files exactly one new
      snapshot under each division, after the ones already there; an id that is
      not a division's keeps its list. */
  lemma EndAppendsOne(start: map<Id, seq<Snapshot>>, fs: seq<Filing>, seasonId: Id, seasonName: string,
                      clock: nat -> int, archive: (seq<Team>, seq<Match>) -> seq<SnapshotRow>, k: nat)
    requires k < |fs|
    requires forall a, b :: 0 <= a < b < |fs| ==> fs[a].divId != fs[b].divId
    ensures Get(Pushed(start, Entries(fs, seasonId, seasonName, clock, archive)), fs[k].divId)
              == Get(start, fs[k].divId) + [SnapshotOf(fs[k], seasonId, seasonName, clock(k), archive)]
  {
    var entries := Entries(fs, seasonId, seasonName, clock, archive);
    PushedAt(start, entries, fs[k].divId);
    UnderDistinct(entries, k);
  }

  /** Ids that are not divisions of the ending season keep their lists. */
  lemma EndKeepsOthers(start: map<Id, seq<Snapshot>>, fs: seq<Filing>, seasonId: Id, seasonName: string,
                       clock: nat -> int, archive: (seq<Team>, seq<Match>) -> seq<SnapshotRow>, id: Id)
    requires forall a :: 0 <= a < |fs| ==> fs[a].divId != id
    ensures Get(Pushed(start, Entries(fs, seasonId, seasonName, clock, archive)), id) == Get(start, id)
    ensures id in Pushed(start, Entries(fs, seasonId, seasonName, clock, archive)) <==> id in start
  {
    var entries := Entries(fs, seasonId, seasonName, clock, archive);
    PushedAt(start, entries, id);
    UnderAbsent(entries, id);
  }
}
