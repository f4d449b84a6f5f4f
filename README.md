# League engine of league-UI, modelled in Dafny

league-UI is a single-page application (`app.js`) for running a sports league:
divisions of teams, generated fixtures, entered results, a standings table with
coloured rank bands and movement arrows, and seasons that are archived and
followed by new ones. This project models the competition engine inside it and
proves what that engine promises:

- **Fixture generation** (`generateRoundRobin`): the circle method, with a bye
  slot for an odd field. An optional second leg has its round numbers shifted
  and, on request, home and away swapped. The loops are methods proved equal to a
  closed-form schedule. Lemmas about that schedule prove:
  - every two teams meet once per leg
  - every team plays `k - 1` matches per leg
  - each round has `k / 2` matches and no team twice
  - with an odd field each team sits out exactly one round per leg
  - rounds are numbered `1..m` and `m+1..2m`
  - the fixed first team alternates home and away
- **Standings** (`computeTable`): the team map, the filter on played matches,
  the stable sort by save time and round, the fold of results, the derived goal
  difference and form, the table sort and the ranks. Each is a method proved
  equal to a specification function. Lemmas about that function prove:
  - one row per team
  - the arithmetic of each row
  - the ordering and its stability
  - ranks `1..n`
  - column totals
  - unplayed and foreign matches are ignored
- **Rank decorators** (`rankBandColor`, `arrowForRank`) and the rank cache
  that `renderStandings` replaces after drawing.
- **Season bookkeeping**, on classes whose fields change in place:
  - `endSeasonWithMatches` files one snapshot per division into the season's
    history object and closes the season.
  - `createNextSeason` adds a season with copied divisions and the *same* history
    object: the sharing is kept as the source has it.
  - `deleteTeam` drops a team and its matches unless the division has two
    teams or fewer.
- **Helpers**: `clamp`, `maxRound`, the round navigation of the schedule tab,
  and `escapeHtml` (proved invertible).

`localeCompare` is a parameter `collate`. The table sort needs it to be a
consistent order (`Standings.Collation`). `Array.prototype.sort`, stable since
ES2019, is the insertion sort `Sorting.StableSort`, whose permutation,
sortedness and stability are proved. `nowId()` is an oracle `mint: nat -> Id`:
its k-th answer is the k-th call. `Date.now()` is the parameter `now`, or an
oracle `clock: nat -> int` whose k-th answer is the k-th reading.

## Model

| member | source | states |
|---|---|---|
| Schedule.GenerateRoundRobin | app.js:209-266 | The returned matches are exactly `Schedule(ids, opts, mint)`: the fixtures of the circle method as unplayed matches, the k-th with the k-th fresh id |
| Schedule.WorkingList | app.js:211-215 | The working list is `Slots(ids)` |
| Schedule.Slots | app.js:213-215 | The working list has the team ids in order, plus one bye slot at the end when the count is odd; its length is even |
| Schedule.PairUp | app.js:225-234 | One round's pairs are `RoundPairings`: slot `i` against slot `n-1-i`, byes skipped, the first slot at home when `homeFirst` |
| Schedule.RotateKeepFirst | app.js:236-239 | The new arrangement is `Rotate(arr)`: slot 0 fixed, the last slot moved to position 1 |
| Schedule.BuildLeg | app.js:220-241 | The per-round fixture lists of the loop are `Rounds(list, n-1)`: round `r` is `Block(list, r)`, with home first in odd rounds |
| ScheduleProperties.ScheduleUnplayed | app.js:212-251 | Fewer than two teams give no matches; otherwise match k is fixture k with id `mint(k)`, no goals and no save time |
| ScheduleProperties.FixtureCount | app.js:212-266 | Twice the number of fixtures is `k(k-1)` per leg, so `k(k-1)/2` matches per leg and none for fewer than two teams |
| ScheduleProperties.LegSize | app.js:213-241 | A leg over `k` teams has `k(k-1)/2` fixtures |
| ScheduleProperties.EachPairMeets | app.js:224-263 | With distinct ids, every two teams meet exactly once per leg, twice with `doubleRound` |
| ScheduleProperties.LegMeetsOnce | app.js:224-241 | Every two distinct teams meet exactly once in the first leg |
| ScheduleProperties.LegPlays | app.js:224-241 | Every team plays `k-1` matches in the first leg |
| ScheduleProperties.MatchesPerTeam | app.js:224-263 | Every team plays `k-1` matches per leg |
| ScheduleProperties.DoubleRoundHosts | app.js:253-263 | With `homeAway`, each team hosts each other team exactly once; without it, the first-leg host hosts both meetings |
| ScheduleProperties.FixturesProper | app.js:226-263 | Every fixture pits two different teams of the division. First-leg rounds lie in `1..m` and second-leg rounds in `m+1..2m`. Unless the second leg keeps the first leg's sides, the first team is at home exactly in odd rounds |
| ScheduleProperties.LegShape | app.js:226-241 | Every first-leg fixture is between two different teams, in rounds `1..m`, the first team at home exactly in odd rounds |
| ScheduleProperties.LegRound | app.js:224-234 | Round `r` of the leg has `k/2` matches, all of round `r`, and no team plays twice in it |
| ScheduleProperties.ByeOnce | app.js:213-234 | With an odd number of distinct teams, each team sits out exactly one round of the leg and plays once in every other round |
| ScheduleProperties.NoIdleRound | app.js:213-234 | With an even number of distinct teams, each team plays once in every round of the leg |
| ScheduleProperties.Legs | app.js:243-265 | The fixtures are `FirstLeg` followed by `SecondLeg(FirstLeg, m, homeAway)` when `doubleRound` is set |
| ScheduleProperties.SecondLegCounts | app.js:253-262 | The second leg has the same matches per team as the first; each host/guest count is swapped when `homeAway` is set and kept otherwise |
| ScheduleProperties.BothLegsCount | app.js:253-265 | Meetings and appearances over both legs are the first leg's plus the second leg's |
| ScheduleProperties.SecondLegShape | app.js:253-262 | Second-leg fixtures lie in rounds `m+1..2m`; when swapped, the first team still alternates by round parity |
| ScheduleProperties.AppendShape | app.js:263 | Concatenating the legs keeps each fixture's round range and alternation |
| ScheduleProperties.PairedIff | app.js:226-239 | After `q` rotations positions of entries `u`, `v` sum to `n-1` iff `q` is their meeting round |
| ScheduleProperties.SlotAtInjective | app.js:236-239 | The rotation is a bijection on positions |
| ScheduleProperties.SlotsDistinct | app.js:211-215 | Distinct ids give a working list without repeats |
| ScheduleProperties.SlotsCircle | app.js:211-215 | The working list over distinct ids is a valid circle with its bye, if any, right after the teams |
| ScheduleProperties.ArrangementDistinct | app.js:236-239 | Rotation keeps the entries distinct |
| ScheduleProperties.ArrangementMember | app.js:236-239 | Rotation introduces no new entry |
| ScheduleProperties.ArrangementPos | app.js:236-239 | Entry `s` sits at position `Pos(n, q, s)` after `q` rotations |
| ScheduleProperties.ArrangementBye | app.js:213-239 | The bye stays the only empty slot after rotation |
| ScheduleProperties.RoundMeetings | app.js:226-233 | In one round, entries at positions `px`, `py` meet once iff `px + py = n-1` |
| ScheduleProperties.RoundPlays | app.js:226-233 | In one round a team plays once unless its opposite slot is the bye |
| ScheduleProperties.RoundCount | app.js:226-233 | One round has `n/2` pairings, one fewer when a bye is present |
| ScheduleProperties.RoundShape | app.js:226-233 | Every pairing of a round has that round number and two different teams, and the fixed first team is at home iff `homeFirst` |
| ScheduleProperties.HostedCount | app.js:226-233 | How often `x` hosts `y` in the first `c` position pairs, counted pair by pair |
| ScheduleProperties.InvolvingCount | app.js:226-233 | Appearances of `x` in the first `c` position pairs, counted pair by pair |
| ScheduleProperties.LengthCount | app.js:226-233 | The number of pairings from the first `c` position pairs is the number of those without a bye |
| ScheduleProperties.RoundHosted | app.js:226-233 | `x` hosts `y` in the first `c` pairs exactly when they are opposite and `x` is on the home side |
| ScheduleProperties.RoundInvolving | app.js:226-233 | `x` appears in the first `c` pairs once when its pair is among them and has no bye |
| ScheduleProperties.RoundLength | app.js:226-233 | The first `c` pairs yield `c` pairings, minus one if the bye is among them |
| ScheduleProperties.CircleBlockMeetings | app.js:224-241 | Two entries meet in round `r` iff `r-1` is their meeting round |
| ScheduleProperties.CircleBlockInvolving | app.js:224-241 | A team plays in every round except the one where it meets the bye |
| ScheduleProperties.CircleBlockLength | app.js:224-241 | Every round has `n/2` matches, `n/2-1` with a bye |
| ScheduleProperties.CircleBlockShape | app.js:224-241 | Every match of round `r` is proper and the first team is at home iff `r` is odd |
| ScheduleProperties.CircleRoundsMeetings | app.js:224-241 | Per round, two entries meet only in their meeting round |
| ScheduleProperties.CircleRoundsInvolving | app.js:224-241 | Per round, a team plays except in its bye round |
| ScheduleProperties.LegMeets | app.js:224-243 | Meeting exactly in one round of the leg means meeting once in the flattened leg |
| ScheduleProperties.LegInvolves | app.js:224-243 | Playing every round but possibly one gives `n-1` or `n-2` appearances in the leg |
| ScheduleProperties.CircleLegMeets | app.js:224-243 | Over the leg every two entries meet exactly once |
| ScheduleProperties.CircleLegPlays | app.js:224-243 | Over the leg every team plays `n-2` matches with a bye, `n-1` without |
| ScheduleProperties.CircleLegSize | app.js:224-243 | The leg has `(n-1)` rounds of equal size |
| ScheduleProperties.CircleLegShape | app.js:224-243 | Every fixture of the leg is proper within rounds `1..n-1` and alternates for the first team |
| ScheduleProperties.MeetsOnlyIn | app.js:243 | Flattening the rounds adds up the meetings per round |
| ScheduleProperties.PlaysAllBut | app.js:243 | Flattening adds up the appearances per round |
| ScheduleProperties.FlattenLength | app.js:243 | Rounds of equal size flatten to `rounds × size` fixtures |
| ScheduleProperties.FlattenShape | app.js:243 | Flattening keeps every fixture's properties |
| ScheduleProperties.FlattenStep | app.js:243 | Flattening one more round adds its meetings, appearances and length |
| ScheduleProperties.FirstLegIs | app.js:220-243 | The first leg is the flattened rounds of the working list, `n-1` of them |
| Standings.ComputeTable | app.js:140-190 | The returned table is `Table(teams, matches, collate)` |
| Standings.NewStats | app.js:141-145 | The map keys and records are `Keys(teams)` and `Initial(teams)` |
| Standings.Keys | app.js:142-145 | The map's keys in insertion order: each team id once, nothing else |
| Standings.Initial | app.js:143-145 | One zeroed record per team id, named after the last team with that id |
| Standings.NameOf | app.js:143-144 | The name kept for an id is that of the last team carrying it |
| Standings.KeysOfDistinct | app.js:143-145 | With distinct ids the keys are the team ids in order |
| Standings.FilterPlayed | app.js:148 | The filtered list is `PlayedMatches(matches)` |
| Standings.PlayedMatches | app.js:148 | A match is in the list iff it is in the input and has both goals entered |
| Standings.PlayedAppend | app.js:148 | The filter commutes with concatenation, so the played matches keep the order they have in `div.matches` |
| Standings.PlayedCount | app.js:148 | Each played match is kept as often as it occurs in `div.matches`, and an unplayed one not at all |
| Standings.OrderedProps | app.js:148-153 | The fold visits a permutation of the played matches. It is ordered by `playedAt or 0`, then round. Ties keep list order |
| Standings.MatchOrder | app.js:149-152 | The match comparator is a strict weak order |
| Standings.OrderedIgnores | app.js:148 | An unplayed match leaves the visiting order unchanged; a played one is inserted into it |
| Standings.FoldResults | app.js:155-172 | The fold loop computes `Apply(start, ordered)` |
| Standings.CountMatch | app.js:156-171 | One iteration computes `ApplyMatch`, which skips a match with an unknown side |
| Standings.ApplyMatchAt | app.js:156-171 | A counted match credits every team with exactly `Credit`: its outcomes, goals and points from that match |
| Standings.HomeCredit | app.js:159-171 | The home side gets one appearance, its goals and its W/D/L with 3/1/0 points |
| Standings.AwayCredit | app.js:159-171 | The away side gets one appearance, its goals and its W/D/L with 3/1/0 points |
| Standings.SelfCredit | app.js:159-171 | A team that meets itself gets both sides' credits |
| Standings.ApplyKeys | app.js:155-172 | The fold never adds or removes a team |
| Standings.ApplyAppend | app.js:155-172 | Folding two lists is folding one after the other |
| Standings.ApplyIsTally | app.js:155-172 | After the fold each team's record is its `Tally`. Counters count its outcomes, points are 3 per win and 1 per draw, and the form is its whole history |
| Standings.TallyStep | app.js:155-172 | A counted match extends a team's tally by its credit |
| Standings.TallySkip | app.js:158 | A match that is not counted leaves every tally unchanged |
| Standings.CountAppend | app.js:164-170 | Outcome counts add over concatenation |
| Standings.CountSplit | app.js:159-170 | Every outcome is a win, a draw or a loss |
| Standings.FinalizeAll | app.js:174-180 | The finalization loop computes `Rows(keys, stats)` |
| Standings.NewestFirst | app.js:177 | The form holds the last `min(5, n)` results, newest first |
| Standings.NumberRows | app.js:188 | The numbering loop computes `Ranked(sorted)` |
| Standings.TableRow | app.js:140-190 | Row i is the finalized tally of a team of the division with rank `i+1` |
| Standings.TableArithmetic | app.js:159-178 | Every row has `pts = 3w + d`, `played = w + d + l`, non-negative W/D/L, `gd = gf - ga`, and a form of length `min(played, 5)` |
| Standings.TableIds | app.js:143-189 | One row per team id: distinct ids, exactly the division's ids |
| Standings.TableSize | app.js:143-180 | With distinct ids the table has one row per team |
| Standings.TableIgnores | app.js:148-158 | Adding an unplayed match, or one with a side outside the division, leaves the table unchanged |
| Standings.FoldIgnores | app.js:148-158 | Such a match leaves the fold unchanged |
| Standings.ApplySkips | app.js:158 | A match that is not counted can be dropped from anywhere in the fold |
| Standings.RowOrder | app.js:181-186 | With a consistent collation the table comparator is a strict weak order |
| Standings.TableSorted | app.js:181-188 | Every row stands above every later row. The order is more points, then better goal difference, then more goals for, then the collation |
| Standings.RankedAbove | app.js:188 | Numbering keeps the order |
| Standings.TableStable | app.js:181-186 | Rows that compare equal keep their order in the map |
| Standings.TableTotals | app.js:155-172 | Total `played` is twice the number of counted matches, total `gf` equals total `ga`, total wins equal total losses |
| Standings.FoldTotals | app.js:155-172 | The same totals hold for the folded records |
| Standings.ZeroTotals | app.js:143-145 | The initial records total zero in every column |
| Standings.FoldStep | app.js:155-172 | One match moves the totals by two appearances and keeps the goal and win/loss balances |
| Standings.StepTotals | app.js:159-171 | One counted match adds 2 appearances, all its goals on both sides, and one win and one loss unless drawn |
| Standings.StepShares | app.js:159-171 | A match's appearances, goals and W/L split between its two sides only |
| Standings.StepCredits | app.js:156-171 | One step credits every team by `Credit` |
| Standings.ColumnStep | app.js:159-171 | A column total moves by the two sides' changes |
| Standings.SortedTotals | app.js:180-188 | Sorting and ranking keep every column total |
| Standings.OrderedCount | app.js:148-153 | Sorting keeps the number of counted matches |
| Sorting.SortPermutes | app.js:181-186 | The sort returns a permutation of its input |
| Sorting.SortMembers | app.js:181-186 | The sort keeps length and members |
| Sorting.SortSorted | app.js:181-186 | Under a strict weak order the result is sorted |
| Sorting.SortStable | app.js:181-186 | Elements that compare equal keep their relative order |
| Sorting.SortTotal | app.js:180-188 | Sorting keeps every sum |
| Sorting.SortDistinct | app.js:180-188 | Sorting keeps distinctness |
| Sorting.InsertSplit | app.js:181-186 | Insertion places the element after all it does not precede and before the first it precedes |
| Sorting.InsertPermutes | app.js:181-186 | Insertion adds exactly the element |
| Sorting.InsertSorted | app.js:181-186 | Insertion keeps a list sorted |
| Sorting.InsertTiedWith | app.js:181-186 | Insertion puts an element after every earlier element it ties with |
| Sorting.TotalAppend | app.js:180-188 | Sums add over concatenation |
| Ranks.RankBandColor | app.js:192-197 | The colour of the first band holding the rank, or `""` when none holds it |
| Ranks.ArrowForRank | app.js:199-206 | Up iff the team had a larger saved rank; down iff it had a smaller one; level iff it had none or the same one |
| Ranks.RankMap | app.js:331-332 | The saved ids are exactly the table's ids |
| Ranks.RankMapLast | app.js:331-332 | An id is mapped to the rank of its last row |
| Ranks.RankMapAt | app.js:331-332 | With distinct ids every row's id maps to its rank |
| Ranks.BuildRankMap | app.js:331-332 | The loop builds `RankMap(table)` |
| Ranks.Decorate | app.js:346-349 | Row i gets the band colour and the arrow that `rankBandColor` and `arrowForRank` give for its rank |
| Ranks.RefreshSettles | app.js:331-332 | Against the map just saved every arrow is level |
| Ranks.ArrowAgainst | app.js:199-206 | Against a saved table an unknown team is level and a known one is compared with its saved rank |
| League.Division.RefreshRanks | app.js:326-428 | The table is `computeTable`'s. Colours and arrows are taken against the ranks saved before. Afterwards the saved ranks are the new table's and nothing else changes |
| League.RedrawSettles | app.js:328-332 | Drawing again right after the refresh shows every arrow level |
| League.Division.CopyOf | app.js:1111-1115 | The copy has the new id, the same name, logo, teams and bands, and no matches or saved ranks |
| League.League.CreateNextSeason | app.js:1100-1127 | The new season is appended with `mint(0)`, the name `Season N` and creation time `now`, not ended. Its divisions are fresh copies with ids `mint(k+1)`. Its history is the current season's object, or a fresh empty one |
| League.Season.constructor | app.js:1106-1121 | The season starts with the given fields and is not ended |
| League.SeasonHistory.constructor | app.js:1486 | A new history is empty |
| League.Season.EnsureHistory | app.js:1486 | The season keeps its history object, or gets a fresh empty one |
| League.ArchiveRows | app.js:1488-1497 | The archived rows are the division's table without form |
| League.FileSnapshots | app.js:1487-1507 | The loop pushes each division's snapshot onto the list under its id, in division order |
| League.Season.EndSeasonWithMatches | app.js:1484-1511 | The history, the same object or a new one, has every division's snapshot pushed onto the list under its id. The k-th snapshot is dated by the k-th clock reading. `endedAt` is the last reading and nothing else changes |
| League.EndNextSeason | app.js:1120 | Ending a season created from `current` files into `current`'s own history object |
| League.FindDivision | app.js:1231 | The position of the first division with the id, or none when there is none |
| League.Season.DeleteTeam | app.js:1229-1239 | An unknown division changes nothing. A division with at most two teams is refused unchanged. Otherwise its teams and matches are filtered and nothing else changes |
| Snapshots.StripAll | app.js:1489-1497 | Each archived row is the table row without form: adding the form back gives the row |
| Snapshots.StripKeeps | app.js:1489-1497 | Archiving keeps every column but the form |
| Snapshots.PushedStep | app.js:1506-1507 | Pushing one more entry appends it to the list under its id |
| Snapshots.FileStep | app.js:1487-1507 | Filing division k extends the history by its snapshot |
| Snapshots.PushedAt | app.js:1506-1507 | Each id's list is its old list followed by the new snapshots carrying that id; only ids filed gain a list |
| Snapshots.UnderDistinct | app.js:1487-1507 | With distinct division ids each division files exactly its own snapshot |
| Snapshots.UnderAbsent | app.js:1487-1507 | An id no division carries gets nothing |
| Snapshots.EndAppendsOne | app.js:1487-1507 | With distinct division ids each division's list gains exactly its one snapshot after the old ones |
| Snapshots.EndKeepsOthers | app.js:1487-1507 | Lists of ids that are not divisions are kept intact |
| SeasonNames.DigitsFrom | app.js:1104 | The longest all-digit prefix |
| SeasonNames.FirstDigit | app.js:1104 | The position of the first digit, or the length when there is none |
| SeasonNames.FirstDigitRun | app.js:1104 | The first maximal run of digits in the name; empty iff the name has no digit |
| SeasonNames.FirstDigitShifts | app.js:1104 | A digit-free prefix shifts the first digit by its length |
| SeasonNames.FirstDigitRunSkips | app.js:1104 | A digit-free prefix does not change the first run |
| SeasonNames.DigitsFromAll | app.js:1104 | An all-digit string is its own run |
| SeasonNames.NatToString | app.js:1108 | A non-empty all-digit spelling without leading zero |
| SeasonNames.DecimalRoundTrip | app.js:1105-1108 | Parsing a printed number gives the number |
| SeasonNames.SeasonNumberCountsUp | app.js:1104-1108 | After `Season n` comes `Season n+1`, whatever the number of seasons |
| SeasonNames.NoDigitFallsBack | app.js:1104-1105 | A name without digits gives the number of seasons plus one |
| Roster.KeepMembers | app.js:1234-1236 | The filter keeps every element that passes, as often as it occurs, and nothing else |
| Roster.KeepAppend | app.js:1234-1236 | Filtering commutes with concatenation, so order is kept |
| Roster.KeepAll | app.js:1234-1236 | A filter every element passes changes nothing |
| Roster.KeepAllBut | app.js:1234 | Removing the one failing element leaves the rest in order |
| Roster.DeletionEffect | app.js:1234-1236 | No team has the id and no match mentions it; every other team and match is kept with its multiplicity |
| Roster.DeleteCount | app.js:1233-1234 | With one team per id, deleting a known id removes one team and an unknown id none |
| Roster.DeleteKeepsConsistent | app.js:1234-1236 | If every match refers to teams of the division, it still does after the deletion |
| Roster.TeamStays | app.js:1234 | Teams other than the deleted one stay |
| RoundNavigation.Clamp | app.js:11 | The result lies in `[a, b]` when `a ≤ b`; `n` itself when inside; the nearer bound otherwise; `a` when `b < a` |
| RoundNavigation.MaxRound | app.js:430-432 | At least 1, no smaller than any `round or 1`, and attained by a match unless it is 1 |
| RoundNavigation.RoundsInRange | app.js:436 | The shown, previous and next rounds lie in `1..maxRound`; showing is idempotent |
| RoundNavigation.Steps | app.js:1542-1553 | "Next" advances by one until the last round and then stays; "previous" goes back by one until round 1 and then stays |
| RoundNavigation.StepsUndo | app.js:1542-1553 | Away from the ends "previous" undoes "next" and "next" undoes "previous" |
| Html.EscapeChar | app.js:1385-1387 | The five special characters become their references, others stay; the output contains no `<`, `>`, `"` or `'` |
| Html.EscapeHtml | app.js:1384-1388 | The output is never shorter and contains no `<`, `>`, `"` or `'` |
| Html.EscapeRoundTrip | app.js:1384-1388 | Decoding the five references gives back the original text |
| Html.UnescapeStep | app.js:1385-1387 | Decoding one escaped character gives the character |
| Html.EscapePlain | app.js:1384-1388 | Text without special characters is unchanged |

## Left out

- DOM rendering, modals, `toast`, `localStorage` persistence (`saveDB`/`loadDB`) and `FileReader` logo uploads: presentation and I/O, no effect on the engine's state.
- `nowId` and `Date.now`: fresh ids are the oracle `mint`, clock readings the parameter `now` or the oracle `clock`; randomness and time are not modelled.
- The global selection `db.selected` and `getLeague`/`getSeason`/`getDivision`: the league, season, division and selected round are passed in and returned. `createNextSeason`'s update of the selection (app.js:1123-1125) is therefore not modelled.
- League.FileSnapshots: a snapshot's `matches` is a shallow copy (`div.matches.slice()`, app.js:1503) that shares its match objects with the division; a later score edit in place (app.js:765, 775-791) changes the archived matches but not the archived rows until the next reload. The model stores `Snapshots.SnapshotOf`'s matches as values, so this sharing is not captured.
- The JSON round trip of persistence: after a reload two seasons no longer share a history object; the model keeps the in-memory sharing of app.js:1120.
- The deep copy of `createNextSeason` copies values; teams are immutable datatypes, so the copy is a new `Division` object holding the same team values.
- `localeCompare`: the parameter `collate`; the table-order properties are proved for every collation satisfying `Standings.Collation`.
- `Array.prototype.sort`: modelled by the stable insertion sort `Sorting.StableSort`; the engine's actual algorithm is not modelled, only its stable result.
- Win percentages of the club view and the display-only sorts of the results lists (app.js:460-461, 1560-1561): floating point and presentation.
- `escapeHtml`'s `String(s)` coercion: the argument is a string.
- JavaScript numbers are doubles: counters, goals, ranks and rounds are unbounded integers, and `parseInt` of a long digit run is exact rather than rounded beyond 2^53.
- `lastRankMap || {}` and `rankColors || []` on missing fields: the fields always exist in the model (an empty map and an empty list).
- Prototype keys such as `__proto__` as team ids in the plain-object rank map and history: the model's maps have no such keys.
- `Math.max(1, ...rounds)` with more rounds than the engine's argument limit: `MaxRound` returns the maximum for any length.
- `m.round || 1` for a missing round: a round of 0 stands for the missing value.
- Snapshots.Entries: its contract states only the number of entries; what they contain is stated by `Snapshots.EndAppendsOne` and `Snapshots.EndKeepsOthers`.
- Roster.Keep: its contract states only that the result is no longer than the input; membership, multiplicity and order are stated by `Roster.KeepMembers`, `Roster.KeepAppend` and `Roster.KeepAllBut`.
- Ranks.RankMap: its contract states which ids are saved; the saved rank per id is stated by `Ranks.RankMapLast` and `Ranks.RankMapAt`.
