/**
 * The static reference data of the randomizer: factions, player boards, the
 * selection records that a draw produces, and the two catalog filters that
 * drop Invaders-from-Afar content when its toggle is off.
 */
module Catalog {

  /** A faction of the catalog: `location` is its seat on the fixed ring of factions. */
  datatype Faction = Faction(name: string, location: int, className: string, invadersOnly: bool)

  /** A player board (player mat) of the catalog. */
  datatype PlayerBoard = PlayerBoard(name: string, invadersOnly: bool)

  /**
   * One entry of a drawn setup: a human seat gets a faction and a board,
   * the automa seat (solo play only) gets a faction and no board.
   */
  datatype Selection =
    | Human(faction: Faction, playerBoard: PlayerBoard)
    | Automa(faction: Faction)

  /** The factions of a drawn setup, entry by entry. */
  function Factions(selection: seq<Selection>): (r: seq<Faction>)
    ensures |r| == |selection|
  {
    if selection == [] then []
    else Factions(selection[..|selection| - 1]) + [selection[|selection| - 1].faction]
  }

  /** Entry `i` of the factions of a setup is the faction of its entry `i`. */
  lemma {:induction false} FactionsAt(selection: seq<Selection>, i: nat)
    requires i < |selection|
    ensures Factions(selection)[i] == selection[i].faction
  {
    if i < |selection| - 1 {
      FactionsAt(selection[..|selection| - 1], i);
    }
  }

  /** The first `players` entries are the human ones and the rest are not. */
  predicate HumansFirst(selection: seq<Selection>, players: nat)
  {
    forall k :: 0 <= k < |selection| ==> (selection[k].Human? <==> k < players)
  }

  /** Appending an entry in its place keeps the human entries first. */
  lemma HumansFirstAppend(selection: seq<Selection>, players: nat, entry: Selection)
    requires HumansFirst(selection, players)
    requires entry.Human? <==> |selection| < players
    ensures HumansFirst(selection + [entry], players)
  {
    var s := selection + [entry];
    forall k | 0 <= k < |s| ensures s[k].Human? <==> k < players {
      if k < |selection| {
        assert s[k] == selection[k];
      }
    }
  }

  /** The boards of the human entries of a drawn setup, in order. */
  function HumanBoards(selection: seq<Selection>): seq<PlayerBoard>
  {
    if selection == [] then []
    else
      var last := selection[|selection| - 1];
      HumanBoards(selection[..|selection| - 1]) + (if last.Human? then [last.playerBoard] else [])
  }

  /** Appending an entry appends its faction, and its board when it is a human entry. */
  lemma SelectionAppend(selection: seq<Selection>, entry: Selection)
    ensures Factions(selection + [entry]) == Factions(selection) + [entry.faction]
    ensures HumanBoards(selection + [entry]) ==
      HumanBoards(selection) + (if entry.Human? then [entry.playerBoard] else [])
  {
    assert (selection + [entry])[..|selection|] == selection;
  }

  /** No element occurs twice. */
  predicate Distinct<T(==)>(s: seq<T>)
  {
    forall i, j :: 0 <= i < j < |s| ==> s[i] != s[j]
  }

  /** `Array.prototype.filter`: the elements of `s` that `keep` accepts, in order. */
  function Filter<T(!new)>(s: seq<T>, keep: T -> bool): (r: seq<T>)
    ensures |r| <= |s|
    ensures forall x :: x in r <==> x in s && keep(x)
  {
    if s == [] then []
    else if keep(s[0]) then [s[0]] + Filter(s[1..], keep)
    else Filter(s[1..], keep)
  }

  /** Filtering a concatenation filters each part and keeps them in order. */
  lemma {:induction false} FilterConcat<T(!new)>(a: seq<T>, b: seq<T>, keep: T -> bool)
    ensures Filter(a + b, keep) == Filter(a, keep) + Filter(b, keep)
  {
    if a == [] {
      assert a + b == b;
    } else {
      assert (a + b)[0] == a[0] && (a + b)[1..] == a[1..] + b;
      FilterConcat(a[1..], b, keep);
      if keep(a[0]) {
        assert Filter(a + b, keep) == [a[0]] + Filter(a[1..] + b, keep);
        assert Filter(a, keep) == [a[0]] + Filter(a[1..], keep);
      } else {
        assert Filter(a + b, keep) == Filter(a[1..] + b, keep);
        assert Filter(a, keep) == Filter(a[1..], keep);
      }
    }
  }

  /** Filtering keeps every element when every element is accepted. */
  lemma {:induction false} FilterAllKept<T(!new)>(s: seq<T>, keep: T -> bool)
    requires forall x :: x in s ==> keep(x)
    ensures Filter(s, keep) == s
  {
    if s != [] {
      assert forall x :: x in s[1..] ==> x in s;
      FilterAllKept(s[1..], keep);
    }
  }

  /** Filtering a list without duplicates gives a list without duplicates. */
  lemma {:induction false} FilterDistinct<T(!new)>(s: seq<T>, keep: T -> bool)
    requires Distinct(s)
    ensures Distinct(Filter(s, keep))
  {
    if s != [] {
      assert Distinct(s[1..]) by {
        forall i, j | 0 <= i < j < |s[1..]| ensures s[1..][i] != s[1..][j] {
          assert s[1..][i] == s[i + 1] && s[1..][j] == s[j + 1];
        }
      }
      FilterDistinct(s[1..], keep);
      if keep(s[0]) {
        var rest := Filter(s[1..], keep);
        assert s[0] !in s[1..] by {
          forall k | 0 <= k < |s[1..]| ensures s[1..][k] != s[0] {
            assert s[1..][k] == s[k + 1];
          }
        }
        assert s[0] !in rest;
        var r := [s[0]] + rest;
        forall i, j | 0 <= i < j < |r| ensures r[i] != r[j] {
          if i == 0 {
            assert r[j] == rest[j - 1];
            assert r[j] in rest;
          } else {
            assert r[i] == rest[i - 1] && r[j] == rest[j - 1];
          }
        }
      }
    }
  }

  /** The factions on offer: the whole catalog, or only its base-game factions. */
  function GetFactions(catalog: seq<Faction>, includeInvaders: bool): (r: seq<Faction>)
    ensures includeInvaders ==> r == catalog
    ensures !includeInvaders ==> forall f :: f in r <==> f in catalog && !f.invadersOnly
    ensures |r| <= |catalog|
  {
    if includeInvaders then catalog
    else Filter(catalog, (f: Faction) => !f.invadersOnly)
  }

  /** The player boards on offer: the whole catalog, or only its base-game boards. */
  function GetPlayerBoards(catalog: seq<PlayerBoard>, includeInvaders: bool): (r: seq<PlayerBoard>)
    ensures includeInvaders ==> r == catalog
    ensures !includeInvaders ==> forall b :: b in r <==> b in catalog && !b.invadersOnly
    ensures |r| <= |catalog|
  {
    if includeInvaders then catalog
    else Filter(catalog, (b: PlayerBoard) => !b.invadersOnly)
  }

  /**
   * With the toggle off, the factions on offer keep catalog order: the filter of
   * a catalog split in two is the filter of each half, one after the other, and
   * a catalog without Invaders content comes through whole.
   */
  lemma GetFactionsInOrder(front: seq<Faction>, back: seq<Faction>)
    ensures GetFactions(front + back, false) == GetFactions(front, false) + GetFactions(back, false)
    ensures (forall f :: f in front ==> !f.invadersOnly) ==> GetFactions(front, false) == front
  {
    FilterConcat(front, back, (f: Faction) => !f.invadersOnly);
    if forall f :: f in front ==> !f.invadersOnly {
      FilterAllKept(front, (f: Faction) => !f.invadersOnly);
    }
  }

  /** The same order property for the player boards on offer. */
  lemma GetPlayerBoardsInOrder(front: seq<PlayerBoard>, back: seq<PlayerBoard>)
    ensures GetPlayerBoards(front + back, false) == GetPlayerBoards(front, false) + GetPlayerBoards(back, false)
    ensures (forall b :: b in front ==> !b.invadersOnly) ==> GetPlayerBoards(front, false) == front
  {
    FilterConcat(front, back, (b: PlayerBoard) => !b.invadersOnly);
    if forall b :: b in front ==> !b.invadersOnly {
      FilterAllKept(front, (b: PlayerBoard) => !b.invadersOnly);
    }
  }

  /** A catalog without repeated entries offers no repeated entries, for factions and boards alike. */
  lemma OfferedDistinct(factions: seq<Faction>, boards: seq<PlayerBoard>, includeInvaders: bool)
    ensures Distinct(factions) ==> Distinct(GetFactions(factions, includeInvaders))
    ensures Distinct(boards) ==> Distinct(GetPlayerBoards(boards, includeInvaders))
  {
    if !includeInvaders && Distinct(factions) {
      FilterDistinct(factions, (f: Faction) => !f.invadersOnly);
    }
    if !includeInvaders && Distinct(boards) {
      FilterDistinct(boards, (b: PlayerBoard) => !b.invadersOnly);
    }
  }
}
