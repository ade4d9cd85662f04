/**
 * The assignment engine, `pickBoards`: it copies the factions and boards on
 * offer into two pools, gives each player a faction and a board drawn without
 * replacement, and in solo play draws one more faction, for the automa, from
 * what is left of the faction pool.
 */
module Boards {
  import opened Catalog
  import opened Draws

  /** Faction draws one run makes: one per player, and one more for the automa in solo play. */
  function FactionDrawCount(playerCount: nat): nat
  {
    if playerCount == 1 then 2 else playerCount
  }

  /**
   * The drawing loop of `pickBoards`, over the two pools on offer.
   * `factionDraws` and `boardDraws` are the random indices the run draws into
   * its faction pool and its board pool, in order; the last faction draw of a
   * solo run is the automa's. The pools are values: the caller's lists are
   * never changed, only the loop's own copies shrink.
   *
   * Afterwards the setup has one human entry per player, first, followed by the
   * automa entry exactly in solo play; its factions are the faction draws and
   * its boards the board draws (what that implies is `SetupFromPools`).
   */
  method Assign(
    factions: seq<Faction>, playerBoards: seq<PlayerBoard>,
    playerCount: nat, factionDraws: seq<nat>, boardDraws: seq<nat>)
    returns (out: seq<Selection>)
    requires |factionDraws| == FactionDrawCount(playerCount) && |boardDraws| == playerCount
    requires DrawsInRange(|factions|, factionDraws) && DrawsInRange(|playerBoards|, boardDraws)
    ensures |out| == playerCount + (if playerCount == 1 then 1 else 0)
    ensures HumansFirst(out, playerCount)
    ensures Factions(out) == Picked(factions, factionDraws)
    ensures HumanBoards(out) == Picked(playerBoards, boardDraws)
  {
    var factionPool, boardPool := factions, playerBoards;
    out := [];
    var i := 0;
    while i < playerCount
      invariant i <= playerCount
      invariant factionPool == Remaining(factions, factionDraws[..i])
      invariant boardPool == Remaining(playerBoards, boardDraws[..i])
      invariant |out| == i && HumansFirst(out, playerCount)
      invariant Factions(out) == Picked(factions, factionDraws[..i])
      invariant HumanBoards(out) == Picked(playerBoards, boardDraws[..i])
    {
      HumanDraw(factions, playerBoards, factionDraws, boardDraws, i, factionPool, boardPool, out);

      var factionIdx := factionDraws[i];
      var faction := factionPool[factionIdx];
      factionPool := RemoveAt(factionPool, factionIdx);

      var boardIdx := boardDraws[i];
      var board := boardPool[boardIdx];
      boardPool := RemoveAt(boardPool, boardIdx);

      HumansFirstAppend(out, playerCount, Human(faction, board));
      out := out + [Human(faction, board)];
      i := i + 1;
    }

    if playerCount == 1 {
      // the automa's faction comes from what the player left in the pool
      AutomaDraw(factions, factionDraws, factionPool, out);
      var automaFaction := factionPool[factionDraws[1]];
      out := out + [Automa(automaFaction)];
    }
    assert factionDraws[..|factionDraws|] == factionDraws;
    assert boardDraws[..playerCount] == boardDraws;
  }

  /**
   * `pickBoards`: draw a setup from the factions and boards the catalog offers
   * under the Invaders toggle. It has no `modifies` clause: the catalog arrays
   * are read, never written.
   */
  method PickBoards(
    catalogFactions: array<Faction>, catalogBoards: array<PlayerBoard>, includeInvaders: bool,
    playerCount: nat, factionDraws: seq<nat>, boardDraws: seq<nat>)
    returns (out: seq<Selection>)
    requires |factionDraws| == FactionDrawCount(playerCount) && |boardDraws| == playerCount
    requires DrawsInRange(|GetFactions(catalogFactions[..], includeInvaders)|, factionDraws)
    requires DrawsInRange(|GetPlayerBoards(catalogBoards[..], includeInvaders)|, boardDraws)
    ensures |out| == playerCount + (if playerCount == 1 then 1 else 0)
    ensures HumansFirst(out, playerCount)
    ensures Factions(out) == Picked(GetFactions(catalogFactions[..], includeInvaders), factionDraws)
    ensures HumanBoards(out) == Picked(GetPlayerBoards(catalogBoards[..], includeInvaders), boardDraws)
    ensures forall i :: 0 <= i < |out| ==> out[i].faction in catalogFactions[..]
    ensures forall i :: 0 <= i < |out| ==> !includeInvaders ==> !out[i].faction.invadersOnly
    ensures forall i :: 0 <= i < playerCount ==> out[i].playerBoard in catalogBoards[..]
    ensures forall i :: 0 <= i < playerCount ==> !includeInvaders ==> !out[i].playerBoard.invadersOnly
    ensures Distinct(catalogFactions[..]) ==> Distinct(Factions(out))
    ensures Distinct(catalogBoards[..]) ==> Distinct(HumanBoards(out))
    ensures playerCount == 1 && Distinct(catalogFactions[..]) ==> out[1].faction != out[0].faction
  {
    var factions := GetFactions(catalogFactions[..], includeInvaders);
    var playerBoards := GetPlayerBoards(catalogBoards[..], includeInvaders);
    OfferedDistinct(catalogFactions[..], catalogBoards[..], includeInvaders);
    out := Assign(factions, playerBoards, playerCount, factionDraws, boardDraws);
    SetupFromPools(out, playerCount, factions, playerBoards, factionDraws, boardDraws);
    if playerCount == 1 {
      FactionsAt(out, 0);
      FactionsAt(out, 1);
    }
  }

  /** One turn of the loop keeps its invariant: the human's faction and board are the next draws. */
  lemma HumanDraw(
    factions: seq<Faction>, playerBoards: seq<PlayerBoard>, factionDraws: seq<nat>, boardDraws: seq<nat>,
    i: nat, factionPool: seq<Faction>, boardPool: seq<PlayerBoard>, out: seq<Selection>)
    requires DrawsInRange(|factions|, factionDraws) && DrawsInRange(|playerBoards|, boardDraws)
    requires i < |factionDraws| && i < |boardDraws|
    requires factionPool == Remaining(factions, factionDraws[..i])
    requires boardPool == Remaining(playerBoards, boardDraws[..i])
    requires Factions(out) == Picked(factions, factionDraws[..i])
    requires HumanBoards(out) == Picked(playerBoards, boardDraws[..i])
    ensures factionDraws[i] < |factionPool| && boardDraws[i] < |boardPool|
    ensures DrawsInRange(|factions|, factionDraws[..i + 1]) && DrawsInRange(|playerBoards|, boardDraws[..i + 1])
    ensures RemoveAt(factionPool, factionDraws[i]) == Remaining(factions, factionDraws[..i + 1])
    ensures RemoveAt(boardPool, boardDraws[i]) == Remaining(playerBoards, boardDraws[..i + 1])
    ensures var entry := Human(factionPool[factionDraws[i]], boardPool[boardDraws[i]]);
      Factions(out + [entry]) == Picked(factions, factionDraws[..i + 1]) &&
      HumanBoards(out + [entry]) == Picked(playerBoards, boardDraws[..i + 1])
  {
    DrawStep(factions, factionDraws, i);
    DrawStep(playerBoards, boardDraws, i);
    SelectionAppend(out, Human(factionPool[factionDraws[i]], boardPool[boardDraws[i]]));
  }

  /** The automa's draw, the second faction draw of a solo run, completes the setup. */
  lemma AutomaDraw(factions: seq<Faction>, factionDraws: seq<nat>, factionPool: seq<Faction>, out: seq<Selection>)
    requires DrawsInRange(|factions|, factionDraws) && |factionDraws| == 2
    requires factionPool == Remaining(factions, factionDraws[..1])
    requires |out| == 1 && HumansFirst(out, 1)
    requires Factions(out) == Picked(factions, factionDraws[..1])
    ensures factionDraws[1] < |factionPool|
    ensures var entry := Automa(factionPool[factionDraws[1]]);
      HumansFirst(out + [entry], 1) &&
      Factions(out + [entry]) == Picked(factions, factionDraws) &&
      HumanBoards(out + [entry]) == HumanBoards(out)
  {
    DrawStep(factions, factionDraws, 1);
    var entry := Automa(factionPool[factionDraws[1]]);
    SelectionAppend(out, entry);
    HumansFirstAppend(out, 1, entry);
    assert factionDraws[..2] == factionDraws;
  }

  /**
   * A setup whose factions and boards are the draws from two pools takes every
   * entry from its pool, and repeats nothing that its pool does not repeat.
   */
  lemma SetupFromPools(
    out: seq<Selection>, playerCount: nat, factionPool: seq<Faction>, boardPool: seq<PlayerBoard>,
    factionDraws: seq<nat>, boardDraws: seq<nat>)
    requires DrawsInRange(|factionPool|, factionDraws) && DrawsInRange(|boardPool|, boardDraws)
    requires playerCount <= |out| && HumansFirst(out, playerCount)
    requires Factions(out) == Picked(factionPool, factionDraws)
    requires HumanBoards(out) == Picked(boardPool, boardDraws)
    ensures forall i :: 0 <= i < |out| ==> out[i].faction in factionPool
    ensures forall i :: 0 <= i < playerCount ==> out[i].playerBoard in boardPool
    ensures Distinct(factionPool) ==> Distinct(Factions(out))
    ensures Distinct(boardPool) ==> Distinct(HumanBoards(out))
  {
    PickedFromPool(factionPool, factionDraws);
    PickedFromPool(boardPool, boardDraws);
    forall i | 0 <= i < |out| ensures out[i].faction in factionPool {
      FactionsAt(out, i);
    }
    forall i | 0 <= i < playerCount ensures out[i].playerBoard in boardPool {
      HumanBoardsOfHumanPrefix(out, playerCount, i);
    }
    if Distinct(factionPool) {
      PickedDistinct(factionPool, factionDraws);
    }
    if Distinct(boardPool) {
      PickedDistinct(boardPool, boardDraws);
    }
  }

  /** When the first `n` entries are the human ones, their boards are, in order, the human boards. */
  lemma {:induction false} HumanBoardsOfHumanPrefix(s: seq<Selection>, n: nat, i: nat)
    requires i < n <= |s|
    requires HumansFirst(s, n)
    ensures |HumanBoards(s)| == n && HumanBoards(s)[i] == s[i].playerBoard
  {
    if |s| > n {
      var init := s[..|s| - 1];
      HumanBoardsOfHumanPrefix(init, n, i);
    } else if |s| - 1 > i {
      var init := s[..|s| - 1];
      HumanBoardsOfHumanPrefix(init, n - 1, i);
    } else {
      HumanBoardsLength(s[..|s| - 1]);
    }
  }

  /** The setup has as many human boards as human entries. */
  lemma {:induction false} HumanBoardsLength(s: seq<Selection>)
    requires forall k :: 0 <= k < |s| ==> s[k].Human?
    ensures |HumanBoards(s)| == |s|
  {
    if s != [] {
      HumanBoardsLength(s[..|s| - 1]);
    }
  }
}
