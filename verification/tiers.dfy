/** The display tier of a position in the ranked list: the medal colour, the
    rank badge and the row style the leaderboard gives the record at each
    0-based index. */
module Tiers {
  import opened Normalize
  import opened Ranking
  import opened Pipeline

  const DefaultMedal: string := "text-gray-300"
  const HighlightRow: string := "bg-red-50/30 hover:bg-red-50/50"
  const PlainRow: string := "bg-white hover:bg-gray-50"

  /** A rank badge: a trophy in a coloured ring for the first three places,
      otherwise the 1-based position as a number. */
  datatype Badge = Trophy(ring: string, icon: string) | Position(place: nat)

  /** `getMedalColor`: gold, silver and bronze for the first three indices,
      grey for every other. */
  function MedalColor(index: nat): (c: string)
    ensures index >= 3 <==> c == DefaultMedal
  {
    match index
    case 0 => "text-yellow-600"
    case 1 => "text-gray-400"
    case 2 => "text-amber-700"
    case _ => DefaultMedal
  }

  /** `getRankBadge`: the ring classes and the trophy's colour for the
      first three indices, the number `index + 1` for the rest. */
  function RankBadge(index: nat): (b: Badge)
    ensures b.Trophy? <==> index < 3
    ensures b.Trophy? ==> b.icon == MedalColor(index) && b.icon != DefaultMedal
    ensures b.Position? ==> b.place == index + 1 && b.place > 3
  {
    if index < 3 then
      Trophy(if index == 0 then "bg-yellow-50 border-2 border-yellow-600"
             else if index == 1 then "bg-gray-50 border-2 border-gray-400"
             else "bg-amber-50 border-2 border-amber-700",
             MedalColor(index))
    else Position(index + 1)
  }

  /** `getRowStyle`: the first three rows are highlighted; rows from the
      fourth to the tenth and every later row look the same. */
  function RowStyle(index: nat): (s: string)
    ensures s == HighlightRow <==> index < 3
    ensures s == HighlightRow || s == PlainRow
  {
    if index < 3 then HighlightRow
    else if index < 10 then PlainRow
    else PlainRow
  }

  /** The podium: the places the three helpers single out. */
  predicate OnPodium(index: nat)
  {
    index < 3
  }

  /** The three helpers agree on which places are the podium. */
  lemma TiersAgree(index: nat)
    ensures OnPodium(index) <==> RankBadge(index).Trophy?
    ensures OnPodium(index) <==> RowStyle(index) == HighlightRow
    ensures OnPodium(index) <==> MedalColor(index) != DefaultMedal
  {
  }

  /** The three podium places each get their own medal colour and ring. */
  lemma PodiumIsDistinct(i: nat, j: nat)
    requires OnPodium(i) && OnPodium(j) && i != j
    ensures MedalColor(i) != MedalColor(j)
    ensures RankBadge(i).ring != RankBadge(j).ring
  {
  }

  /** Below the podium, the badge numbers the places 4, 5, 6, ... without
      gaps: consecutive indices get consecutive places. */
  lemma PositionsCount(index: nat)
    requires !OnPodium(index)
    ensures RankBadge(index + 1).place == RankBadge(index).place + 1
  {
  }

  /** With no NaN among the kept scores, every podium record scores at
      least as much as every record below the podium. */
  lemma PodiumOutscoresField(rows: seq<Row>)
    requires NamedScoresAreNumbers(rows)
    ensures forall i, j :: (0 <= i < |Process(rows)| && 0 <= j < |Process(rows)| && OnPodium(i) && !OnPodium(j))
                           ==> !Less(Process(rows)[i].score, Process(rows)[j].score)
  {
    RankedByScore(rows);
  }
}
