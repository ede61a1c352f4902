/**
 The player store (player_file_path, create_player, load_player,
 save_player) and the purchase transaction shared by the console menu and
 the web handler.  The players directory is a map from file name to the
 record that file holds; JSON encoding is not modelled, so a record reads
 back exactly as it was written.
 */
module Store {
  import opened Values
  import opened Text
  import opened Selector
  import opened Catalog

  /** A player file's contents: "name", "balance", "SPENT" and "inventory". */
  datatype Record = Record(name: string, balance: int, spent: int, inventory: seq<string>)

  const JsonSuffix: string := ".json"

  /** The starting balance create_player is called with by default. */
  const DefaultStartingBalance: int := 1000

  /** The file name a player's record is stored under. */
  function FilePath(name: string): (file: string)
    ensures EndsWith(file, JsonSuffix) && |file| == |name| + 5
  {
    name + JsonSuffix
  }

  /** The player name a leaderboard scan reads off a file name: filename[:-5]. */
  function NameOf(file: string): string {
    if |file| >= 5 then file[..|file| - 5] else ""
  }

  /** Stripping the suffix from a player's file name gives back the player's name. */
  lemma NameOfFilePath(name: string)
    ensures NameOf(FilePath(name)) == name
  {
    assert FilePath(name)[..|name|] == name;
  }

  /** Every ".json" file name is the file name of the name it is read as. */
  lemma FilePathOfNameOf(file: string)
    requires EndsWith(file, JsonSuffix)
    ensures FilePath(NameOf(file)) == file
  {
    assert file == file[..|file| - 5] + file[|file| - 5..];
  }

  /** Distinct players have distinct files. */
  lemma FilePathInjective(a: string, b: string)
    ensures FilePath(a) == FilePath(b) <==> a == b
  {
    if FilePath(a) == FilePath(b) {
      NameOfFilePath(a);
      NameOfFilePath(b);
    }
  }

  type Files = map<string, Record>

  /** load_player: the record in the player's file, None when there is no such file. */
  function Load(files: Files, name: string): (r: Option<Record>)
    ensures r.Some? <==> FilePath(name) in files
  {
    if FilePath(name) in files then Some(files[FilePath(name)]) else None
  }

  /** save_player: overwrite the player's file with the record. */
  function Save(files: Files, name: string, rec: Record): (r: Files)
    ensures r.Keys == files.Keys + {FilePath(name)}
    ensures Load(r, name) == Some(rec)
  {
    files[FilePath(name) := rec]
  }

  /** The record create_player writes for a new player. */
  function NewRecord(name: string, startingBalance: int): Record {
    Record(name, startingBalance, 0, [])
  }

  /** create_player: the directory afterwards; an existing file is left as it is. */
  function AfterCreate(files: Files, name: string, startingBalance: int): (r: Files)
    ensures FilePath(name) in files ==> r == files
    ensures FilePath(name) !in files ==> Load(r, name) == Some(Record(name, startingBalance, 0, []))
    ensures forall other :: other != name ==> Load(r, other) == Load(files, other)
  {
    FilePathInjectiveAll(name);
    if FilePath(name) in files then files else Save(files, name, NewRecord(name, startingBalance))
  }

  lemma FilePathInjectiveAll(name: string)
    ensures forall other :: other != name ==> FilePath(other) != FilePath(name)
  {
    forall other | other != name ensures FilePath(other) != FilePath(name) {
      FilePathInjective(other, name);
    }
  }

  /** Saving one player leaves every other player's record as it was. */
  lemma SaveOnlyChangesItsKey(files: Files, name: string, rec: Record, other: string)
    requires other != name
    ensures Load(Save(files, name, rec), other) == Load(files, other)
  {
    FilePathInjective(name, other);
  }

  /** Saving the same record twice is the same as saving it once. */
  lemma SaveIdempotent(files: Files, name: string, rec: Record)
    ensures Save(Save(files, name, rec), name, rec) == Save(files, name, rec)
  {
  }

  /** A second create_player of a name fails and keeps the first record. */
  lemma CreateTwice(files: Files, name: string, b1: int, b2: int)
    ensures FilePath(name) in AfterCreate(files, name, b1)
    ensures AfterCreate(AfterCreate(files, name, b1), name, b2) == AfterCreate(files, name, b1)
  {
  }

  /** The writes the store can see: a create_player or a save_player call. */
  datatype StoreOp = CreateOp(name: string, startingBalance: int) | SaveOp(name: string, rec: Record)

  /** The players directory after a sequence of writes into an empty directory. */
  function Replay(ops: seq<StoreOp>): Files
    decreases |ops|
  {
    if ops == [] then map[]
    else
      var before := Replay(ops[..|ops| - 1]);
      match ops[|ops| - 1]
      case CreateOp(n, b) => AfterCreate(before, n, b)
      case SaveOp(n, rec) => Save(before, n, rec)
  }

  /** load_player finds a record exactly for the names some create or save has written. */
  lemma {:induction false} LoadAfterReplay(ops: seq<StoreOp>, name: string)
    ensures Load(Replay(ops), name).Some? <==> exists i :: 0 <= i < |ops| && ops[i].name == name
    decreases |ops|
  {
    if ops != [] {
      var front := ops[..|ops| - 1];
      LoadAfterReplay(front, name);
      FilePathInjective(name, ops[|ops| - 1].name);
      if exists i :: 0 <= i < |ops| && ops[i].name == name {
        var i :| 0 <= i < |ops| && ops[i].name == name;
        if i < |front| {
          assert front[i] == ops[i];
        }
      }
      if exists i :: 0 <= i < |front| && front[i].name == name {
        var i :| 0 <= i < |front| && front[i].name == name;
        assert ops[i] == front[i];
      }
    }
  }

  /** The outcome of the purchase step once the box and the player's record are in hand. */
  datatype Purchase = NotEnoughCoins | Opened(record: Record, prize: Option<string>)

  /**
   The purchase on a detached copy of the record: refused when the balance is
   below the cost; otherwise the cost moves from balance to SPENT and a truthy
   prize is appended to the inventory.
   */
  function Buy(pdata: Record, box: Lootbox, r: real): (p: Purchase)
    ensures p.NotEnoughCoins? <==> pdata.balance < box.cost
    ensures p.Opened? ==> p.prize == SelectPrize(box.items, r)
    ensures p.Opened? ==> p.record.name == pdata.name
    ensures p.Opened? ==> p.record.balance == pdata.balance - box.cost && p.record.balance >= 0
    ensures p.Opened? ==> p.record.spent == pdata.spent + box.cost
    ensures p.Opened? ==> |p.record.inventory| == |pdata.inventory| + (if Truthy(p.prize) then 1 else 0)
    ensures p.Opened? ==> p.record.inventory[..|pdata.inventory|] == pdata.inventory
    ensures p.Opened? && Truthy(p.prize) ==> p.record.inventory[|pdata.inventory|] == p.prize.value
  {
    if pdata.balance < box.cost then NotEnoughCoins
    else
      var prize := SelectPrize(box.items, r);
      var inventory := if Truthy(prize) then pdata.inventory + [prize.value] else pdata.inventory;
      Opened(Record(pdata.name, pdata.balance - box.cost, pdata.spent + box.cost, inventory), prize)
  }

  /** A lootbox that costs nothing or more never lowers a player's SPENT. */
  lemma SpentNeverDecreases(pdata: Record, box: Lootbox, r: real)
    requires box.cost >= 0
    ensures Buy(pdata, box, r).Opened? ==> Buy(pdata, box, r).record.spent >= pdata.spent
  {
  }

  /** The players directory, held as a map from file name to record. */
  class PlayerStore {
    var files: Files

    /** An empty players directory. */
    constructor ()
      ensures files == map[]
    {
      files := map[];
    }

    /** create_player: false, and nothing written, when the player's file exists. */
    method CreatePlayer(name: string, startingBalance: int := DefaultStartingBalance) returns (ok: bool)
      modifies this
      ensures ok <==> FilePath(name) !in old(files)
      ensures files == AfterCreate(old(files), name, startingBalance)
    {
      var path := FilePath(name);
      if path in files {
        return false;
      }
      files := files[path := NewRecord(name, startingBalance)];
      return true;
    }

    /** load_player. */
    method LoadPlayer(name: string) returns (pdata: Option<Record>)
      ensures pdata == Load(files, name)
    {
      var path := FilePath(name);
      if path !in files {
        return None;
      }
      return Some(files[path]);
    }

    /** save_player. */
    method SavePlayer(name: string, pdata: Record)
      modifies this
      ensures files == Save(old(files), name, pdata)
    {
      files := files[FilePath(name) := pdata];
    }

    /**
     The purchase steps of open_lootbox_menu and open_box, on the caller's
     copy of the record: check the funds, take the cost, draw, award a truthy
     prize and save; nothing is written when the funds are short.
     */
    method Purchase(name: string, pdata: Record, box: Lootbox, r: real) returns (outcome: Purchase)
      requires 0.0 <= r < 1.0
      modifies this
      ensures outcome == Buy(pdata, box, r)
      ensures outcome.NotEnoughCoins? ==> files == old(files)
      ensures outcome.Opened? ==> files == Save(old(files), name, outcome.record)
    {
      var cost := box.cost;
      if pdata.balance < cost {
        return NotEnoughCoins;
      }
      var updated := pdata.(balance := pdata.balance - cost, spent := pdata.spent + cost);
      var prize := OpenLootboxChoice(box.items, r);
      if Truthy(prize) {
        updated := updated.(inventory := updated.inventory + [prize.value]);
      }
      SavePlayer(name, updated);
      return Opened(updated, prize);
    }
  }
}
