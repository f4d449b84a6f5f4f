/** The decorations of a standings row: the colour band of its rank
    (`rankBandColor`, app.js:192-197), the movement arrow against the ranks shown
    last time (`arrowForRank`, app.js:199-206), and the rank map saved after each
    drawing of the table (app.js:331-332). */
module Ranks {
  import opened LeagueModel

  /** Band `b` covers `rank`, both ends included. */
  predicate InBand(b: RankBand, rank: int) {
    b.from <= rank <= b.to
  }

  /** The colour of the first band, in list order, that covers `rank`; the empty
      string when none does. */
  function RankBandColor(bands: seq<RankBand>, rank: int): (color: string)
    ensures (forall i :: 0 <= i < |bands| ==> !InBand(bands[i], rank)) ==> color == ""
    ensures forall i :: 0 <= i < |bands| && InBand(bands[i], rank)
                        && (forall j :: 0 <= j < i ==> !InBand(bands[j], rank))
                        ==> color == bands[i].color
  {
    if bands == [] then ""
    else if InBand(bands[0], rank) then bands[0].color
    else
      var c := RankBandColor(bands[1..], rank);
      assert forall i :: 1 <= i < |bands| ==> bands[i] == bands[1..][i - 1];
      c
  }

  /** The CSS class and glyph of a movement arrow. */
  datatype Arrow = Arrow(cls: string, text: string)

  const Up := Arrow("up", "\U{25B2}")
  const Down := Arrow("down", "\U{25BC}")
  const Same := Arrow("same", "\U{2192}")

  /** Up when the team now ranks better (a smaller number) than last time, down
      when worse, level when equal or when it has no previous rank. */
  function ArrowForRank(last: map<Id, int>, id: Id, newRank: int): (a: Arrow)
    ensures a == Up <==> id in last && newRank < last[id]
    ensures a == Down <==> id in last && newRank > last[id]
    ensures a == Same <==> id !in last || newRank == last[id]
  {
    if id !in last then Same
    else if newRank < last[id] then Up
    else if newRank > last[id] then Down
    else Same
  }

  /** The map `teamId -> rank` built from a table; a later row with the same id
      overwrites an earlier one, as property assignment does. */
  function RankMap(table: seq<Standing>): (ranks: map<Id, int>)
    ensures forall id :: id in ranks <==> exists i :: 0 <= i < |table| && table[i].id == id
  {
    if table == [] then map[]
    else
      var prior := table[..|table| - 1];
      var r := table[|table| - 1];
      var ranks := RankMap(prior);
      var result := ranks[r.id := r.rank];
      assert forall id :: id in result <==> exists i :: 0 <= i < |table| && table[i].id == id by {
        forall id | id in result ensures exists i :: 0 <= i < |table| && table[i].id == id {
          if id != r.id {
            var i :| 0 <= i < |prior| && prior[i].id == id;
            assert table[i].id == id;
          }
        }
        forall id, i | 0 <= i < |table| && table[i].id == id ensures id in result {
          if i < |prior| {
            assert prior[i].id == id;
          }
        }
      }
      result
  }

  /** The map keeps the rank of the last row carrying an id. */
  lemma {:induction false} RankMapLast(table: seq<Standing>, i: nat)
    requires i < |table|
    requires forall j :: i < j < |table| ==> table[j].id != table[i].id
    ensures table[i].id in RankMap(table) && RankMap(table)[table[i].id] == table[i].rank
  {
    var n := |table| - 1;
    if i < n {
      var prior := table[..n];
      assert prior[i] == table[i];
      forall j | i < j < |prior| ensures prior[j].id != prior[i].id {
        assert prior[j] == table[j];
      }
      RankMapLast(prior, i);
      assert RankMap(table) == RankMap(prior)[table[n].id := table[n].rank];
    }
  }

  /** With one row per team, the map gives every team the rank of its row. */
  lemma RankMapAt(table: seq<Standing>, i: nat)
    requires i < |table|
    requires forall a, b :: 0 <= a < b < |table| ==> table[a].id != table[b].id
    ensures table[i].id in RankMap(table) && RankMap(table)[table[i].id] == table[i].rank
  {
    RankMapLast(table, i);
  }

  /** Drawing the same table again right after saving its ranks shows every
      arrow level. */
  lemma RefreshSettles(table: seq<Standing>)
    requires forall a, b :: 0 <= a < b < |table| ==> table[a].id != table[b].id
    ensures forall i :: 0 <= i < |table| ==> ArrowForRank(RankMap(table), table[i].id, table[i].rank) == Same
  {
    forall i | 0 <= i < |table| ensures ArrowForRank(RankMap(table), table[i].id, table[i].rank) == Same {
      RankMapAt(table, i);
    }
  }

  /** Against the ranks saved from a previous table, a team's arrow compares its
      new rank with its row there, and is level for a team that had no row. */
  lemma ArrowAgainst(previous: seq<Standing>, id: Id, newRank: int)
    requires forall a, b :: 0 <= a < b < |previous| ==> previous[a].id != previous[b].id
    ensures (forall j :: 0 <= j < |previous| ==> previous[j].id != id) ==> ArrowForRank(RankMap(previous), id, newRank) == Same
    ensures forall j :: 0 <= j < |previous| && previous[j].id == id ==>
              ArrowForRank(RankMap(previous), id, newRank)
                == if newRank < previous[j].rank then Up else if newRank > previous[j].rank then Down else Same
  {
    forall j | 0 <= j < |previous| && previous[j].id == id
      ensures ArrowForRank(RankMap(previous), id, newRank)
                == if newRank < previous[j].rank then Up else if newRank > previous[j].rank then Down else Same
    {
      RankMapAt(previous, j);
    }
  }

  /** The `forEach` of app.js:331-332: one assignment per row, in table order. */
  method BuildRankMap(table: seq<Standing>) returns (ranks: map<Id, int>)
    ensures ranks == RankMap(table)
  {
    ranks := map[];
    for i := 0 to |table|
      invariant ranks == RankMap(table[..i])
    {
      assert table[..i + 1][..i] == table[..i];
      ranks := ranks[table[i].id := table[i].rank];
    }
    assert table[..|table|] == table;
  }

  /** The decorations the drawing loop puts on each row: band colour and arrow
      against the ranks saved before this drawing. */
  method Decorate(table: seq<Standing>, bands: seq<RankBand>, last: map<Id, int>)
    returns (colors: seq<string>, arrows: seq<Arrow>)
    ensures |colors| == |table| && |arrows| == |table|
    ensures forall i :: 0 <= i < |table| ==>
              && colors[i] == RankBandColor(bands, table[i].rank)
              && arrows[i] == ArrowForRank(last, table[i].id, table[i].rank)
  {
    colors := seq(|table|, i requires 0 <= i < |table| => RankBandColor(bands, table[i].rank));
    arrows := seq(|table|, i requires 0 <= i < |table| => ArrowForRank(last, table[i].id, table[i].rank));
  }
}
