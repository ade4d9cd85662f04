/**
 * The scoring half of `populateBoards`: draw a setup and, when proximity is
 * switched on, score every entry's faction against the whole setup on the
 * ring of all catalog factions. Rendering is not part of the model.
 */
module Populate {
  import opened Catalog
  import opened Distance
  import opened Draws
  import opened Proximity
  import opened Boards

  /** Every catalog faction sits on the ring formed by the whole catalog. */
  predicate CatalogOnRing(catalogFactions: seq<Faction>)
  {
    forall k :: 0 <= k < |catalogFactions| ==> OnRing(catalogFactions[k], |catalogFactions|)
  }

  /** A setup whose factions all come from the catalog sits on the catalog's ring. */
  lemma CatalogMembersOnRing(catalogFactions: seq<Faction>, selection: seq<Selection>)
    requires CatalogOnRing(catalogFactions)
    requires forall i :: 0 <= i < |selection| ==> selection[i].faction in catalogFactions
    ensures AllOnRing(selection, |catalogFactions|)
  {
    forall i | 0 <= i < |selection| ensures OnRing(selection[i].faction, |catalogFactions|) {
      var k :| 0 <= k < |catalogFactions| && catalogFactions[k] == selection[i].faction;
    }
  }

  /**
   * `populateBoards` without its rendering: the setup `pickBoards` draws and,
   * per entry, the exact parts of that entry's faction's proximity score
   * against the whole setup, or nothing when proximity is off. The ring
   * is the whole catalog, whatever the Invaders toggle filters out. Every score
   * asked for is defined: a drawn setup never has exactly one entry, so the
   * divisor is positive, and each score is at most half the ring.
   */
  method PopulateBoards(
    catalogFactions: array<Faction>, catalogBoards: array<PlayerBoard>,
    includeInvaders: bool, withProximity: bool,
    playerCount: nat, factionDraws: seq<nat>, boardDraws: seq<nat>)
    returns (out: seq<Selection>, scores: seq<Option<MeanSquare>>)
    requires CatalogOnRing(catalogFactions[..])
    requires |factionDraws| == FactionDrawCount(playerCount) && |boardDraws| == playerCount
    requires DrawsInRange(|GetFactions(catalogFactions[..], includeInvaders)|, factionDraws)
    requires DrawsInRange(|GetPlayerBoards(catalogBoards[..], includeInvaders)|, boardDraws)
    ensures |out| == playerCount + (if playerCount == 1 then 1 else 0)
    ensures HumansFirst(out, playerCount)
    ensures Factions(out) == Picked(GetFactions(catalogFactions[..], includeInvaders), factionDraws)
    ensures HumanBoards(out) == Picked(GetPlayerBoards(catalogBoards[..], includeInvaders), boardDraws)
    ensures AllOnRing(out, catalogFactions.Length)
    ensures scores == SelectionScores(out, catalogFactions.Length, withProximity)
    ensures |scores| == |out|
    ensures forall i :: 0 <= i < |scores| && scores[i].Some? ==>
      scores[i].value.divisor + 1 == |out| && WithinHalfRing(scores[i].value, catalogFactions.Length)
  {
    out := PickBoards(catalogFactions, catalogBoards, includeInvaders, playerCount, factionDraws, boardDraws);
    CatalogMembersOnRing(catalogFactions[..], out);
    scores := SelectionScores(out, catalogFactions.Length, withProximity);
  }
}
