/**
 The console lootbox menu (open_lootbox_menu) without its printing: the
 current player, the listed lootboxes and the already-read answer to the
 menu prompt are parameters, and the result says which message the menu ends
 with.
 */
module Cli {
  import opened Values
  import opened Catalog
  import opened Store

  /** The answer to the lootbox prompt: 'b' or 'B', a number, or text int() rejects. */
  datatype MenuChoice = Back | Number(n: int) | Invalid

  datatype MenuResult =
    | NoPlayerSelected
    | LoadFailed
    | NoLootboxes
    | WentBack
    | InvalidChoice
    | NotEnoughCoins
    | Won(boxName: string, prize: Option<string>)

  /** Python's list indexing: a negative index counts from the end. */
  function PyIndex(len: nat, idx: int): (k: Option<nat>)
    ensures k.Some? <==> -(len as int) <= idx < len
    ensures k.Some? ==> k.value < len && (k.value == idx || k.value == len + idx)
  {
    if 0 <= idx < len then Some(idx)
    else if -(len as int) <= idx < 0 then Some(len + idx)
    else None
  }

  /** The lootbox a menu number picks: boxes[number - 1]. */
  function Pick(boxes: seq<(string, Lootbox)>, number: int): (picked: Option<(string, Lootbox)>)
    ensures picked.Some? <==> -|boxes| < number <= |boxes|
    ensures 0 < number <= |boxes| ==> picked == Some(boxes[number - 1])
    ensures -|boxes| < number <= 0 ==> picked == Some(boxes[|boxes| + number - 1])
  {
    match PyIndex(|boxes|, number - 1)
    case None => None
    case Some(k) => Some(boxes[k])
  }

  /** Typing 0 picks the last lootbox of the menu, since index -1 is the last element. */
  lemma ZeroPicksLast(boxes: seq<(string, Lootbox)>)
    requires |boxes| > 0
    ensures Pick(boxes, 0) == Some(boxes[|boxes| - 1])
  {
  }

  /** A number that picks a box from the catalog's menu list picks the catalog's entry for that name. */
  lemma PickFromCatalog(records: seq<CatalogRecord>, number: int)
    ensures var picked := Pick(CatalogItems(records), number);
      picked.Some? ==> picked.value.0 in Lootboxes(records) && Lootboxes(records)[picked.value.0] == picked.value.1
  {
    CatalogItemsAgree(records);
  }

  /**
   open_lootbox_menu: the player check and load come first, then the menu
   choice, then the purchase on the loaded record.  The menu list boxes is
   list(lootboxes.items()), which for a catalog loaded from records is
   CatalogItems(records).
   */
  method OpenLootboxMenu(store: PlayerStore, current: Option<string>, boxes: seq<(string, Lootbox)>,
                         choice: MenuChoice, r: real) returns (res: MenuResult)
    requires 0.0 <= r < 1.0
    modifies store
    ensures !Truthy(current) ==> res == NoPlayerSelected
    ensures Truthy(current) && Load(old(store.files), current.value).None? ==> res == LoadFailed
    ensures Truthy(current) && Load(old(store.files), current.value).Some? ==>
      var pdata := Load(old(store.files), current.value).value;
      if boxes == [] then res == NoLootboxes
      else if choice.Back? then res == WentBack
      else if choice.Invalid? || Pick(boxes, choice.n).None? then res == InvalidChoice
      else
        var (boxName, box) := Pick(boxes, choice.n).value;
        match Buy(pdata, box, r)
        case NotEnoughCoins => res == MenuResult.NotEnoughCoins
        case Opened(rec, prize) =>
          res == Won(boxName, prize) && store.files == Save(old(store.files), current.value, rec)
    ensures !res.Won? ==> store.files == old(store.files)
  {
    if !Truthy(current) {
      return NoPlayerSelected;
    }
    var pdata := store.LoadPlayer(current.value);
    if pdata.None? {
      return LoadFailed;
    }
    if boxes == [] {
      return NoLootboxes;
    }
    if choice.Back? {
      return WentBack;
    }
    if choice.Invalid? {
      return InvalidChoice;
    }
    var picked := Pick(boxes, choice.n);
    if picked.None? {
      return InvalidChoice;
    }
    var (selectedName, selectedBox) := picked.value;
    var outcome := store.Purchase(current.value, pdata.value, selectedBox, r);
    if outcome.NotEnoughCoins? {
      return MenuResult.NotEnoughCoins;
    }
    return Won(selectedName, outcome.prize);
  }
}
